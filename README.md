# Agentic workflow engine — a Dafny model

This project models the core of a small workflow engine written in Python.

A workflow is an IR document: a list of nodes, each naming an action (`actionRef`, `schemaVersion`), the nodes it depends on (`dependsOn`), an `input` and retry settings. The parts modelled are these:

- **The runner (`runner.py`).**
  - It orders the nodes with Kahn's algorithm (`_topo_order`) and reports the nodes left on a cycle.
  - It loads the action registry from the file names of the actions directory (`_load_actions`) and reads the quarantine list.
  - For each node in order it picks a handler, real or mocked (`_mock_handler`).
  - It resolves `{"$ref": "$.nodes.<id>.output...."}` references against the outputs of the nodes that already ran (`_resolve_input`, `_resolve_ref`).
  - It calls the handler with retries and a cooperative timeout, and stores the output.
  - It exits with 0 (success), 2 (invalid IR), 3 (cycle or a node that cannot be dispatched) or 4 (a node failed or is quarantined).
- **The action handlers:**
  - `plugin.transform.jq`, a path evaluator;
  - `plugin.html.extract_xml` and `plugin.transform.strip_html`;
  - `plugin.transform.slugify` and `plugin.transform.to_title_case`;
  - `plugin.core.echo` and `plugin.core.timeout`;
  - the four `plugin.sqlite.*` stubs.
- **The utilities:**
  - the Graphviz DOT rendering of a workflow and the node lookup (`utils/dag_viz.py`);
  - the result-cache keys and listing (`utils/cache_manager.py`);
  - the executor, which substitutes the query into a workflow file, runs the runner and turns its output into log entries and a result (`utils/executor.py`).

## Layout

Each Dafny file is one module:

- `Wrappers`: `Option` and `Result`.
- `Text`: the Python `str` operations the source relies on (`strip`, `find`, `rfind`, `split`, `join`, `replace`, `lower`, `int()`, `str(int)`), with their algebra (`Join(Split(s, sep), sep) == s`, split of a join, last piece of a split, `replace` as join of split, `int(str(n)) == n`).
- `Json`: JSON-like values, with dicts as insertion-ordered association lists, plus `str()`/`repr()`.
- `Seqs`: the sequence and set helpers.
- `Workflow`: the parsed IR nodes; `{n["id"]: n for n in nodes}` keeps the last node with each id.
- `Topo`: `_topo_order` as an imperative method, proved against a specification by pending-dependency counts.
- `Refs`: `_resolve_ref` (a method with its loop, proved against a function) and `_resolve_input`.
- `Runner`: the registry, quarantine, handler choice, mocks, retry loop and node loop of `main`.
- `Jq`, `Markup`, `Transforms`, `CoreActions`: the action handlers.
- `DagViz`, `CacheManager`, `Executor`: the utilities.

## Model

| member | source | states |
|---|---|---|
| Topo.TopoOrder | runner.py:40-61 | the order lists distinct known ids; each id in it has all its dependencies earlier; a node is scheduled iff all its dependencies are; the cycle list is the ids never scheduled, in dict order; every dependency-free node is scheduled; a node with an unknown or repeated dependency is reported; no cycles iff some complete schedule exists |
| Topo.InDegrees | runner.py:41-49 | the in-degree map has exactly the node ids as keys, each mapped to its number of dependency entries summed over all nodes with that id; the keys come in first-occurrence order |
| Topo.ZeroDegrees | runner.py:41-46 | every id starts at in-degree 0; the keys are the ids in first-occurrence order |
| Topo.CountDependencies | runner.py:47-49 | after node i, every id's in-degree counts the dependency entries of the nodes up to i |
| Topo.Drain | runner.py:52-59 | the queue loop keeps the queue and degree invariants and the scheduled order valid, and the initial queue is a prefix of the order |
| Topo.Pop | runner.py:53-59 | popping the queue head appends it to the order, keeps the invariants, and keeps the order followed by the queue growing |
| Topo.Release | runner.py:55-59 | after the scan over all nodes, every degree equals the pending count for the extended order; the queue only grows |
| Topo.ReleaseAt | runner.py:55-59 | one node of the scan: a decrement once per node with that id that lists `cur` (so a duplicate dependency is never released), and an enqueue when the degree reaches 0 |
| Topo.PendingSign | runner.py:49-58 | with distinct scheduled ids, a pending count is never negative, and it is 0 iff the node's dependencies are all scheduled |
| Topo.PendingInitial | runner.py:47-50 | the initial in-degree is 0 iff the node has no dependency entries |
| Topo.PendingSnoc | runner.py:55-57 | scheduling `cur` lowers each pending count once per node with that id that lists `cur`, so a duplicate dependency is never released |
| Topo.HitsAtMost | runner.py:56-58 | the scheduled dependencies are at most the dependencies, with equality iff all are scheduled |
| Topo.Leftover | runner.py:60 | once the queue is empty, the ids with a positive degree are exactly the unscheduled ones, and a node with an unscheduled dependency is among them |
| Topo.ScheduledSnoc | runner.py:53-54 | appending a node whose dependencies are all scheduled keeps every prefix ready |
| Topo.UnscheduledIffCycle | runner.py:60-61 | the cycle list is empty iff a complete schedule of all the nodes exists |
| Topo.AcyclicNoCycles | runner.py:52-60 | with known dependencies and a rank that decreases along dependencies, every node is scheduled |
| Topo.RankedScheduled | runner.py:52-60 | the induction on rank behind the no-cycle result |
| Topo.CompleteScheduleRanks | runner.py:52-61 | a complete schedule yields known dependencies and a decreasing rank (positions in the order) |
| Topo.Position | runner.py:52-61 | the index of the first occurrence of `x`, or the length when `x` is absent |
| Workflow.Ids | runner.py:43-50 | the distinct ids in first-occurrence (dict-insertion) order |
| Workflow.LastWithId | runner.py:233 | the index of the last node with the id, or -1 when there is none |
| Workflow.IdToNode | runner.py:233 | `{n["id"]: n}`: the keys are the ids, and each maps to the last node bearing it |
| Refs.ResolveRef | runner.py:64-101 | the method with its token loop returns the value that `Resolve` specifies |
| Refs.StepToken | runner.py:80-100 | one token of the loop: a plain field lookup, or an optional head then an index |
| Refs.IndexStep | runner.py:82-95 | an index token: the head lookup, `int()` of the index text, and the bounds check, with their error messages |
| Refs.Field | runner.py:97-100 | a field step succeeds iff the value is a dict holding the key; otherwise "field not found" |
| Refs.ParseToken | runner.py:82-84 | a token is an index token iff it holds `[` and ends with `]`; otherwise it is a field name |
| Refs.ParseIndexToken | runner.py:82-84 | `head[i]` with `i` written in decimal parses back to the head and `i` |
| Refs.Apply | runner.py:82-100 | every failure while walking the tokens is permanent |
| Refs.WalkPermanent | runner.py:80-100 | walking any token list fails only with a permanent error |
| Refs.RetryableOnlyForUnknownNode | runner.py:66-71 | resolution fails retryably iff the path is well formed and names a node not yet run |
| Refs.WalkFields | runner.py:96-100 | walking plain field names is nested dict lookup, failing with the path in the message |
| Refs.SplitRefPath | runner.py:66 | a path built from an id and field names without dots splits back into its parts |
| Refs.RefParts | runner.py:67-69 | such parts are well formed and give back the id and the fields |
| Refs.ResolveRefPath | runner.py:64-101 | a reference to a node not yet run is retryable; otherwise it resolves to the nested lookup, or is permanently "field not found" |
| Refs.Collect | runner.py:108-110 | the comprehension succeeds iff every element does, keeping order; a failure is the first failing element's |
| Refs.ResolveInput | runner.py:104-116 | a dict that is not a lone `$ref` keeps its keys in order; a list keeps its length; a template string fails permanently in verify and prod; other scalars are returned unchanged |
| Refs.ResolveDictChildren | runner.py:104-108 | a dict whose only key is `$ref`, holding a string, becomes what that path resolves to; any other dict resolves iff each value does, keeps its keys in order with each value replaced by its resolution, and otherwise fails with the error of the first value that fails |
| Refs.ResolveListChildren | runner.py:109-110 | a list resolves iff each item does, keeps its order with each item replaced by its resolution, and otherwise fails with the error of the first item that fails |
| Refs.ResolveLiteral | runner.py:104-116 | input without references and without banned templates resolves to itself |
| Runner.VersionAsWrittenMisreads | runner.py:140-146 | as written, a module whose stem already holds `_v` gets a version that differs from its `_vX` suffix |
| Runner.VersionAsWrittenExample | runner.py:140-146 | `plugin_data_validate_v1` is registered as `validate_v1` as written, and as `v1` after the correction |
| Runner.VersionAsWrittenOfSuffix | runner.py:144 | as written, the version is everything after the first `_v` |
| Runner.VersionOfSuffix | runner.py:140-146 | with the correction, `<stem>_v<suffix>` has version `v<suffix>` whatever the stem |
| Runner.Registrations | runner.py:134-147 | a module registers exactly its callable actions, each under the module's version |
| Runner.Register | runner.py:137-147 | the registration loop adds those entries over the existing mapping, later ones replacing earlier |
| Runner.LoadActions | runner.py:119-148 | the registry is the overlay of the contributions of the files in listing order, each module registering its callable actions under the version the source derives (everything after the first `_v`) |
| Runner.RegistryStep | runner.py:124-147 | after one more file, the registry is the one before with that file's registrations written over it |
| Runner.Contributions | runner.py:124-147 | one contribution per file, in listing order: a loadable `.py` module contributes exactly its callable actions under its version as written (`VersionAsWritten`), any other file nothing |
| Runner.OverlayMembers | runner.py:147 | a key is registered iff some file contributes it |
| Runner.OverlayLastWins | runner.py:147 | a key contributed by several files maps to the last file's handler |
| Runner.QuarantineEntry | runner.py:242-246 | a quarantine line yields a pair of hashable values whose version is never falsy (it defaults to "v1") |
| Runner.LoadQuarantine | runner.py:237-248 | the quarantine set is exactly the entries of the lines that parse; bad lines are skipped |
| Runner.SelectHandler | runner.py:259-280 | a non-string actionRef stops with 3; otherwise, each exit iff its cause: 1 iff the schemaVersion is unhashable; 3 iff no handler is registered for (actionRef, schemaVersion) and mock-io has no mock for the ref, dry run or not; 4 iff such a handler or mock exists but the pair is quarantined in verify or prod; the mock iff mock-io knows the ref and the pair is not quarantined; the registered handler `registry[(actionRef, schemaVersion)]` iff it exists, no mock replaces it and the pair is not quarantined |
| Runner.MockOutput | runner.py:155-207 | every mock returns a dict, and fails only when it reads a field of an input that is not a dict |
| Runner.Utf8Length | runner.py:166 | a UTF-8 length lies between the length and four times it, and equals it for ASCII |
| Runner.MockFilesWriteBytes | runner.py:164-167 | for a string `content`, the files mock answers exactly `{"bytesWritten": len(content.encode("utf-8"))}` |
| Runner.MockLlmEchoesPrompt | runner.py:174-177 | for a string prompt, the LLM mock answers exactly `{"text": "Mock: " + prompt[:20]}` |
| Runner.Judge | runner.py:305-357 | an attempt succeeds iff the handler returned a dict within the timeout; it fails for good on a permanent error or a non-dict result; otherwise it is retried |
| Runner.Attempts | runner.py:300-357 | the loop makes exactly the calls `TriesFrom` specifies from attempt 1: numbered from 1, each judged on its own outcome, all but the last retried, at least one and at most max(1, maxAttempts), a retried last call only once maxAttempts are made; the output is the last call's iff it succeeded |
| Runner.JudgeAttempt | runner.py:305-357 | the `try` and `except` clauses of one attempt decide it as `Judge` specifies |
| Runner.TriesShape | runner.py:300-357 | from attempt `a` on, the calls are numbered `a`, `a+1`, ..., each judged on its own outcome; all but the last are retried; a retried last call means `maxAttempts` was reached; there are at most max(a, maxAttempts) - a + 1 |
| Runner.TriesFromFirst | runner.py:300-357 | from the first attempt: numbered from 1, all but the last retried, between 1 and max(1, maxAttempts) calls, and a retried last call only after maxAttempts attempts |
| Runner.TriesOfOne | runner.py:300-317 | every call of a node's retry loop is a call of that node, and a last call that succeeded returned a dict |
| Runner.Schedule | runner.py:228-231 | scheduling succeeds iff the nodes are schedulable, and then yields an order covering every id with dependencies first |
| Runner.Run | runner.py:210-364 | an invalid IR exits 2 with no call; a cycle exits 3 with no call; otherwise the order covers every id with dependencies first, and the exit code, outputs and calls are exactly those of the node loop `Loop(NodePass(...))` over it; exit 0 means every node has a dict output, each the last successful call of its node; a dry run calls nothing; every call follows successful calls of its node's dependencies |
| Runner.RunOrder | runner.py:256-357 | the method computes exactly the node loop over the order, which stops at the first pass that stops (see `Runner.LoopAppend`); exit codes are 0, 1, 3 or 4; exit 0 means a dict output for every node id, each backed by its last successful call; a dry run calls nothing; calls follow their dependencies' successful calls |
| Runner.RunNode | runner.py:259-317 | one pass is exactly `NodeStep`: a handler that cannot be chosen returns its exit code with outputs and calls unchanged; a dry run stores `{"dryRun": true}` and calls nothing; an input that does not resolve stops with 4 and no call; otherwise the retry loop's calls are logged and the loop goes on iff the last succeeded |
| Runner.CallNode | runner.py:300-357 | the calls are the earlier calls followed by the retry loop's calls (`TriesFrom` from attempt 1); the loop goes on (0) iff the last call succeeded, storing its output for the node; otherwise 4 with the outputs unchanged |
| Runner.LoopAt | runner.py:256-260 | the loop from the i-th id is the pass of that id, then the rest only if the pass went on |
| Runner.LoopAppend | runner.py:256-357 | the loop over `order + rest` is the loop over `order`, then, only if that went on, the loop over `rest` from where it left off: once a pass stops the run, no later node runs |
| Runner.LoopKeeps | runner.py:256-357 | the loop over any pass that keeps the per-node invariant keeps `main`'s promises: exit codes 0, 1, 3, 4; exit 0 means a dict output for every node id, each backed by a call; a dry run calls nothing; every call is about a node and follows successful calls of its dependencies |
| Runner.NodePassKeeps | runner.py:259-357 | `main`'s pass keeps the per-node invariant on every node, outputs and calls |
| Runner.DispatchKeeps | runner.py:259-357 | whatever handler choice and resolved input: the code is 0, 1, 3 or 4; going on adds exactly the node's dict output; a dry run calls nothing; outputs stay backed by calls; calls stay causal |
| Runner.FinishKeeps | runner.py:300-317 | after the retry loop of a node whose dependencies have outputs: going on stores the last call's dict, keeps the other outputs and keeps every output backed by a call; the calls stay causal |
| Runner.DependenciesDone | runner.py:258-288 | when a node's turn comes, the outputs of all its dependencies are present |
| Runner.AppendCausal | runner.py:258-357 | calls of a node whose dependencies already succeeded keep the call history causal |
| Runner.AppendKnown | runner.py:258-357 | calls of a node of the workflow keep every logged call about a node of the workflow |
| Runner.RecordAppend | runner.py:317 | storing the last successful output keeps every output equal to its node's last successful call |
| Jq.Eval | actions/plugin_transform_jq_v1.py:27-69 | a non-string or empty expression is rejected; after cutting at `\|`, an expression not starting with `.` is rejected |
| Jq.EvalExpression | actions/plugin_transform_jq_v1.py:27-69 | the method with its nested loops computes what `Eval` specifies |
| Jq.WalkTokens | actions/plugin_transform_jq_v1.py:39-68 | the token loop equals the specified path walk, stopping at the first miss or error |
| Jq.WalkToken | actions/plugin_transform_jq_v1.py:41-68 | the inner `while tok` loop equals the specified token walk |
| Jq.Head | actions/plugin_transform_jq_v1.py:62-63 | the head is the non-empty prefix up to the first `[` |
| Jq.Truncate | actions/plugin_transform_jq_v1.py:32-33 | the cut expression holds no `\|` |
| Jq.Handler | actions/plugin_transform_jq_v1.py:72-78 | a non-string expression raises ValueError; otherwise the result is `{"result": Eval(data, expression)}` or Eval's error |
| Jq.EvalIdentity | actions/plugin_transform_jq_v1.py:38 | `.` returns the data unchanged |
| Jq.PipeTruncation | actions/plugin_transform_jq_v1.py:32-33 | only the stripped text before the first `\|` is evaluated |
| Jq.DoubleBracket | actions/plugin_transform_jq_v1.py:43-45 | a leading `[[` is read as `[` |
| Jq.IndexMiss | actions/plugin_transform_jq_v1.py:56-57 | an index off a non-list or out of range ends the whole evaluation with None, whatever follows |
| Jq.MissedStops | actions/plugin_transform_jq_v1.py:56-57 | once an index misses, the later tokens are not looked at |
| Jq.IndexHit | actions/plugin_transform_jq_v1.py:56-60 | an in-range index moves into the element and goes on with the rest of the token |
| Jq.UnclosedIndex | actions/plugin_transform_jq_v1.py:48-50 | a `[` without `]` raises "invalid index token" |
| Jq.BadIndex | actions/plugin_transform_jq_v1.py:51-55 | index text that `int()` rejects raises "invalid array index" |
| Jq.NameToken | actions/plugin_transform_jq_v1.py:62-68 | a plain name is a dict lookup, else "field not found" |
| Jq.NamesWalk | actions/plugin_transform_jq_v1.py:39-68 | walking plain names is nested dict lookup |
| Jq.FieldPath | actions/plugin_transform_jq_v1.py:27-69 | `.a.b.c` evaluates to the nested lookup, or "field not found" |
| Markup.Extract | actions/plugin_html_extract_xml_v1.py:10-20 | the extracted text is no longer than the input |
| Markup.ExtractXml | actions/plugin_html_extract_xml_v1.py:10-20 | the character loop with its `in_tag` flag computes `Extract` |
| Markup.ExtractXmlHandler | actions/plugin_html_extract_xml_v1.py:4-22 | a missing `text` raises ValueError, and a string or list input fails the `in` test as in Json.RequireField; a string `text` yields `{"text": Extract(text)}` |
| Markup.ExtractSelects | actions/plugin_html_extract_xml_v1.py:12-20 | extraction keeps exactly the characters inside tags, and the brackets, in order |
| Markup.ExtractKeepsBrackets | actions/plugin_html_extract_xml_v1.py:13-18 | every `<` and every `>` of the input is kept |
| Markup.ExtractWithoutOpen | actions/plugin_html_extract_xml_v1.py:12-20 | without `<`, only the `>` characters survive |
| Markup.InTagExtract | actions/plugin_html_extract_xml_v1.py:11-19 | extraction leaves the final `in_tag` state unchanged |
| Markup.ExtractIdempotent | actions/plugin_html_extract_xml_v1.py:10-20 | extracting twice is extracting once |
| Markup.StripHtmlHandler | actions/plugin_transform_strip_html_v1.py:5-18 | `text` is used when it is a string, else `html`; with neither, ValueError |
| Markup.RemoveTagsNoTag | actions/plugin_transform_strip_html_v1.py:16 | after tag removal no complete `<...>` remains |
| Markup.CollapseSpaced | actions/plugin_transform_strip_html_v1.py:17 | after collapsing, white space occurs only as single spaces |
| Markup.CollapseRest | actions/plugin_transform_strip_html_v1.py:17 | a run of white space becomes one space and the scan resumes after the run |
| Markup.CollapseNoTag | actions/plugin_transform_strip_html_v1.py:16-17 | collapsing white space does not create a tag |
| Markup.StripHtmlShape | actions/plugin_transform_strip_html_v1.py:16-17 | the result has no tag, only single spaces, and no white space at either end |
| Markup.RemoveTagsOfNoTag | actions/plugin_transform_strip_html_v1.py:16 | tag removal leaves tag-free text unchanged |
| Markup.CollapseOfSpaced | actions/plugin_transform_strip_html_v1.py:17 | collapsing leaves single-spaced text unchanged |
| Markup.StripHtmlIdempotent | actions/plugin_transform_strip_html_v1.py:16-17 | stripping twice is stripping once |
| Transforms.Separator | actions/plugin_transform_slugify_v1.py:8-12 | the separator is never empty and is `-` when none is given |
| Transforms.SlugifyHandler | actions/plugin_transform_slugify_v1.py:6-14 | a non-string text raises ValueError; otherwise the output is the slug with the chosen separator |
| Transforms.RunsRest | actions/plugin_transform_slugify_v1.py:13 | a run of non-alphanumerics becomes one separator, and the scan resumes after the run |
| Transforms.ReplaceRunsDashed | actions/plugin_transform_slugify_v1.py:13 | after the replacement with `-`, only alphanumerics and single dashes remain |
| Transforms.SlugShape | actions/plugin_transform_slugify_v1.py:13 | a default slug is lowercase alphanumerics joined by single dashes, with none at either end |
| Transforms.SlugEnds | actions/plugin_transform_slugify_v1.py:13 | for any separator, the slug is the lowered strip, and neither end is a separator character |
| Transforms.ReplaceRunsOfDashed | actions/plugin_transform_slugify_v1.py:13 | the replacement leaves dashed text unchanged |
| Transforms.LowerOfSlug | actions/plugin_transform_slugify_v1.py:13 | lowering leaves a slug unchanged |
| Transforms.SlugIdempotent | actions/plugin_transform_slugify_v1.py:13 | slugifying a slug gives it back |
| Transforms.TitleScan | actions/plugin_transform_to_title_case_v1.py:9 | `str.title()` keeps the length |
| Transforms.TitleCaseHandler | actions/plugin_transform_to_title_case_v1.py:5-9 | a non-string text raises ValueError; otherwise the output is the title-cased text |
| Transforms.TitleScanAt | actions/plugin_transform_to_title_case_v1.py:9 | each letter is upper-cased at a word start and lower-cased elsewhere; other characters are unchanged |
| Transforms.TitleAt | actions/plugin_transform_to_title_case_v1.py:9 | a letter is upper case iff it starts the text or follows a non-letter, and otherwise lower case; its letter is kept; non-letters are unchanged |
| Transforms.TitleScanIdempotent | actions/plugin_transform_to_title_case_v1.py:9 | the scan is idempotent from any starting state |
| Transforms.TitleIdempotent | actions/plugin_transform_to_title_case_v1.py:9 | title-casing twice is title-casing once |
| CoreActions.Echo | actions/plugin_core_echo_v1.py:4-10 | a dict input gives a single `message` key |
| CoreActions.EchoKeeps | actions/plugin_core_echo_v1.py:5-10 | a string message with a non-space character is echoed unchanged |
| CoreActions.EchoDefault | actions/plugin_core_echo_v1.py:5-9 | a missing or None message, or white space only, becomes `(no result)` |
| CoreActions.EchoNeverBlank | actions/plugin_core_echo_v1.py:5-10 | the echoed message is never blank, whatever the message holds |
| CoreActions.Timeout | actions/plugin_core_timeout_v1.py:4-7 | a missing `text` raises ValueError and a non-string one TypeError; a string or list input raises ValueError unless it contains `"text"`, then TypeError; a string `text` gives exactly `{"text": text + " timed out"}` |
| CoreActions.TimeoutOnNonDicts | actions/plugin_core_timeout_v1.py:5-7 | `"abc"` and `["x"]` raise the ValueError, `"subtext"` passes the `in` test and fails at the subscript |
| CoreActions.SqliteQuery | actions/plugin_sqlite_query_v1.py:4-14 | a missing `text` raises the ValueError, and a string or list input fails the `in` test as in Json.RequireField; otherwise `{"text": text}` |
| CoreActions.SqliteInsertRow | actions/plugin_sqlite_insert_row_v1.py:4-16 | a missing `text` raises the ValueError, and a string or list input fails the `in` test as in Json.RequireField; otherwise status, the text, and a message naming it, in that order |
| CoreActions.SqliteCreateTable | actions/plugin_sqlite_create_table_v1.py:4-14 | a missing `text` raises the ValueError (with a final period), and a string or list input fails the `in` test as in Json.RequireField; otherwise a message naming the text |
| CoreActions.SqliteCreateDb | actions/plugin_sqlite_create_db_v1.py:4-16 | a missing `text` raises the ValueError, and a string or list input fails the `in` test as in Json.RequireField; otherwise status and a message quoting the database name |
| CoreActions.SqliteOnlyText | actions/plugin_sqlite_query_v1.py:6-11 | the stubs and the timeout handler read nothing but `text` |
| CoreActions.InsertRowMessage | actions/plugin_sqlite_insert_row_v1.py:10-14 | the inserted row's message ends with the string it echoes |
| DagViz.ShortActionSuffix | utils/dag_viz.py:36 | the short action is what follows the last `.`, holds no `.`, and is the whole ref iff the ref has no `.` |
| DagViz.Pairs | utils/dag_viz.py:45-47 | a node's edges run from each dependency, in order, to the node |
| DagViz.NodeLines | utils/dag_viz.py:32-38 | one node line per node |
| DagViz.EdgeLines | utils/dag_viz.py:43-47 | one edge line per edge |
| DagViz.WorkflowToDot | utils/dag_viz.py:12-50 | the loops produce the newline join of the header, the node lines, a blank line, the edge lines and `}` |
| DagViz.AppendEdges | utils/dag_viz.py:43-47 | the nested loops append one line per dependency of each node, in order |
| DagViz.EdgesCount | utils/dag_viz.py:43-47 | the number of edges is the sum of the dependency counts |
| DagViz.PairsOf | utils/dag_viz.py:45-47 | a node yields an edge iff the source is one of its dependencies |
| DagViz.EdgesOf | utils/dag_viz.py:43-47 | an edge is drawn iff some node lists that dependency |
| DagViz.DotShape | utils/dag_viz.py:23-49 | the document has 7 + nodes + edges lines: the 5 header lines, one line per node in order, a blank line, one line per edge in order, and `}` |
| DagViz.DotLinesOneLine | utils/dag_viz.py:23-49 | without line breaks in ids and refs, no line of the document holds a line break |
| DagViz.DotSplits | utils/dag_viz.py:50 | splitting the document at line breaks gives back its lines |
| DagViz.FirstWithId | utils/dag_viz.py:53-59 | None iff no node has the id; otherwise the first node with it |
| DagViz.GetNodeDetails | utils/dag_viz.py:53-59 | the search loop returns the first node with the id, or nothing |
| DagViz.FirstIsIndexed | utils/dag_viz.py:53-59 | with unique ids, the lookup agrees with the runner's id-to-node map |
| CacheManager.SafeAt | utils/cache_manager.py:14 | the normal form has the query's length: each character lowered, and spaces and dashes made `_` |
| CacheManager.SafeIsSafe | utils/cache_manager.py:14 | the normal form has no space, no dash and no uppercase letter |
| CacheManager.SafeIdempotent | utils/cache_manager.py:14 | normalising twice is normalising once |
| CacheManager.SameKey | utils/cache_manager.py:11-15 | two queries share a cache key iff they agree position by position up to case and the interchange of space, `-` and `_` |
| CacheManager.Stem | utils/cache_manager.py:53 | the stem is a prefix of the file name |
| CacheManager.ListCachedQueries | utils/cache_manager.py:44-55 | a missing directory gives no queries; otherwise the query of each `*.json` entry, in listing order |
| CacheManager.JsonNamesOf | utils/cache_manager.py:51 | the listing keeps exactly the `*.json` entries |
| CacheManager.StemOfJson | utils/cache_manager.py:53 | the stem of `<base>.json` is `base` |
| CacheManager.RoundTrip | utils/cache_manager.py:11-55 | a lowercase query without `_`, `-` or `/` is saved under a `.json` file whose name lists back as the query |
| CacheManager.PresetQueries | utils/cache_manager.py:59-68 | each of `arxiv_search`, `wiki_summary` and `error_recovery` has exactly its listed presets, and any other name has none |
| Executor.QueryFilled | utils/executor.py:43 | outside error_recovery, every `{query}` is replaced by the query |
| Executor.UrlFilledAfterQuery | utils/executor.py:43-50 | in error_recovery, `{url}` is filled after `{query}`, so a query holding `{url}` is filled too |
| Executor.UrlInsideQuery | utils/executor.py:43-50 | a query spelled `{url}` becomes the 200 URL |
| Executor.UrlChoice | utils/executor.py:46-50 | the failure URL is chosen iff the query is `simulate failure` |
| Executor.NoPlaceholders | utils/executor.py:37-53 | content without placeholders is written unchanged |
| Executor.LogStdout | utils/executor.py:132-138 | the loop appends the stdout entries of the lines |
| Executor.LogLine | utils/executor.py:133-138 | a line adds its stripped text as an info entry unless it is blank |
| Executor.StdoutEntriesAppend | utils/executor.py:132-138 | the entries of two runs of lines are the entries of each, in order |
| Executor.StdoutEntriesShape | utils/executor.py:132-138 | every entry is info, non-empty, stripped, and the strip of some line |
| Executor.StdoutEntriesSnoc | utils/executor.py:133 | a line adds an entry iff it holds something other than white space |
| Executor.Finish | utils/executor.py:140-164 | success iff return code 0, with the completion entry; otherwise the error is the stripped stderr, or "Unknown error" |
| Executor.LogStart | utils/executor.py:95-113 | the three start entries are logged in order: the workflow, the query, the schema validation |
| Executor.Aborted | utils/executor.py:166-191 | a timeout or an exception fails the run with one error entry after the start entries |
| Executor.Returned | utils/executor.py:132-164 | a returned runner logs its stdout entries after the start entries, then the closing entry chosen by the return code |
| Executor.ExecuteWorkflow | utils/executor.py:56-191 | a missing file gives the not-found error, one log entry and an execution time of 0; otherwise three start entries, then the stdout entries and the closing entry by return code, or the timeout or exception entry |
| Text.ReplaceIsJoinOfSplit | utils/executor.py:43 | `str.replace` is the join of the split at the pattern |
| Text.JoinSplit | utils/dag_viz.py:50 | joining the split of a string at `sep` gives the string back |
| Text.SplitJoin | utils/executor.py:132 | splitting a join on a one-character separator absent from the parts gives the parts back |
| Text.SplitLast | utils/dag_viz.py:36 | the last piece of a split is the longest suffix without the separator |
| Text.ReplaceChar | utils/cache_manager.py:14 | replacing one character by another maps the string character by character |
| Text.ParseIntOfIntToString | runner.py:90 | `int(str(n)) == n` |
| Text.StripWithEmpty | actions/plugin_core_echo_v1.py:8 | `strip()` leaves nothing iff every character is white space |
| Json.Get | actions/plugin_core_echo_v1.py:5 | `dict.get` finds a value iff the key is present, and returns that key's value |
| Json.RequireField | actions/plugin_core_timeout_v1.py:5-7 | `key not in obj` then `obj[key]`: on a dict a missing key raises ValueError with the given message and a present one yields its value; on a string (substring test) or a list (membership test) a failed test raises the ValueError and a passed one TypeError; on None, a bool or an int, TypeError |
| Json.PyIn | actions/plugin_core_timeout_v1.py:5 | Python's `in`: a key test on a dict, a substring test on a string, a membership test on a list |

## Left out

- File and process I/O is not modelled:
  - reading the IR (`_read_ir`), YAML/JSON parsing and the `kind`/`nodes` checks beyond a flag and a node list;
  - writing metrics to `metrics.jsonl`, printing, and the `sys.path` set-up;
  - sleeping for the backoff.
- Environment variables, the clock and imports are parameters:
  - the verify-mode mock-io variable and `AUTOMATOR_MODE`;
  - the wall time of each attempt (`clock`);
  - the handlers' results (`handlers`);
  - whether a module imports, and its `ACTIONS`.
- Real action handlers outside the modelled actions are not modelled. Their results are the `handlers` parameter.
- `int()` of the `retry`/`timeoutMs` settings is not modelled. A node carries `maxAttempts` and `timeoutMs` as integers. A value that `int()` rejects would raise before the retry loop.
- A debugging print in `_resolve_ref` is not modelled. It is inert apart from its output.
- `_resolve_input` on a dict with a non-string `$ref` walks into the dict as the source does. Non-dict `input` values are passed as they are.
- String case mapping covers ASCII letters only. Unicode case folding and `str.title()` on non-ASCII letters are not modelled. White space (`str.strip()`, `str.isspace()`, `\s` in `re`) is Python's full set of Unicode white-space characters.
- Text.ParseInt accepts ASCII digits only. Python's `int()` also accepts other Unicode decimal digits, in an index of a `$ref` path (runner.py:90) and in a jq index.
- Json.Repr escapes only ASCII control characters and DEL. Python's `repr` also escapes other non-printable characters, such as `\x85` and `\xa0`.
- JSON values have no floats: a float in an input, an output or a setting is not modelled.
- Every node has a string `id` and a list of string `dependsOn`. Not modelled: a non-string id; a string `dependsOn`, which `_topo_order` iterates by character (runner.py:48) and tests as a substring (runner.py:56); and a `dependsOn` that is not iterable, a TypeError that exits with 1.
- Runner.SelectHandler compares quarantine pairs as values. Python's set also identifies `True` with `1` and `False` with `0`; that identification is not modelled.
- Transforms.SlugifyHandler treats the separator as literal text. The escapes that `re.sub` would interpret in a replacement string are not modelled.
- Markup.ExtractXmlHandler gives TypeError for every non-string `text`. Python iterates over a list `text`, which succeeds when its items are strings; other types fail.
- DagViz.WorkflowToDot requires every `actionRef` to be a string or absent. `workflow.get('nodes', [])` is given as the node list.
- Executor.ExecuteWorkflow takes the runner's outcome, its stdout and stderr and the elapsed time as parameters. The temporary file, its clean-up and the substitution itself happen outside the model; `Executor.SubstituteQuery` models the substitution on the file's content.
- Exceptions from `substitute_query` before the `try` are not modelled.
- Timestamps and the `node_id`/`details` fields of log entries are not modelled.
- Executor.WorkflowPath joins with `/`. `pathlib` normalisation is not modelled.
- CacheManager works on names only. Loading and saving the JSON files is not modelled.
- Runner.Run reaches exit code 1 (an uncaught exception) only through an unhashable schemaVersion, under the node typing above. Other uncaught exceptions, such as `int()` of the retry settings or a malformed `dependsOn`, are not modelled.
- Runner.Run treats every exception other than the two runner errors as retryable, as the source does.

## Findings

| source | as written | input that shows it | evidently intended | confidence | as-written member | corrected member |
|---|---|---|---|---|---|---|
| runner.py:140-146 | the version is "v" plus everything after the FIRST `_v` in the module name | a module `plugin_data_validate_v1` is registered under version `validate_v1` | the version is the file-name suffix `_vX`, so `v1` | not executed | Runner.VersionAsWrittenExample | Runner.VersionOfSuffix |

The registry (`Runner.Contribution`, `Runner.LoadActions`) uses the version as written, as the runner computes it; `Runner.Version` is the corrected rule, proved to give `v<suffix>` for any stem.
