/**
 * The runner's `main`: load the action registry and the quarantine list, order the nodes,
 * then for each node choose a handler, resolve its input and call it with retries,
 * storing each output for the nodes after it. Exit codes: 0 success, 1 an uncaught
 * exception, 2 an invalid IR, 3 a cycle or a node that cannot be dispatched, 4 a node
 * that failed.
 *
 * Handlers are not run here: the outcome of calling a loaded handler and the wall time
 * each attempt takes are parameters (`handlers` and `clock`). The mocks of `_mock_handler`
 * are modelled.
 */
module Runner {
  import opened Wrappers
  import opened Text
  import opened Json
  import opened Seqs
  import opened Workflow
  import opened Topo
  import opened Refs

  // ---------------------------------------------------------------------
  // _load_actions
  // ---------------------------------------------------------------------

  /** A handler the runner can call: one a module of the actions directory registered, or a built-in mock. */
  datatype Handler = Loaded(source: string, actionRef: string) | Mock(actionRef: string)

  /**
   * A file of the actions directory as the loader finds it: its name, whether importing
   * it succeeds, and its `ACTIONS` (an absent attribute is an empty dict; None when it is
   * not a dict), each action ref with whether its handler is callable.
   */
  datatype ActionFile = ActionFile(name: string, imports: bool, actions: Option<seq<(string, bool)>>)

  /** (action ref, version) to the module that registered it. */
  type Registry = map<(string, string), string>

  function ModuleName(name: string): string
    requires EndsWith(name, ".py")
  {
    name[..|name| - 3]
  }

  /** A `.py` file, not starting with `__`, that imports and has a dict of actions. */
  predicate Loadable(f: ActionFile) {
    EndsWith(f.name, ".py") && !StartsWith(ModuleName(f.name), "__") && f.imports && f.actions.Some?
  }

  /** The version as the loader derives it: "v" and the text after the FIRST `_v`, else "v1". */
  function VersionAsWritten(mod: string): string {
    var f := Find(mod, "_v");
    if f.Some? then "v" + mod[f.value + 2..] else "v1"
  }

  /** The version the file-name suffix `_vX` gives: "v" and the text after the LAST `_v`, else "v1". */
  function Version(mod: string): string {
    var f := RFind(mod, "_v");
    if f.Some? then "v" + mod[f.value + 2..] else "v1"
  }

  /** A module named `<stem>_v<suffix>`, with no `_` in the suffix, has version `v<suffix>`, whatever the stem holds. */
  lemma VersionOfSuffix(stem: string, suffix: string, name: string)
    requires '_' !in suffix && name == stem + "_v" + suffix
    ensures Version(name) == "v" + suffix
  {
    assert OccursAt(name, "_v", |stem|) by {
      assert name[|stem|..|stem| + 2] == "_v";
    }
    forall j: nat | |stem| < j ensures !OccursAt(name, "_v", j) {
      if j + 2 <= |name| {
        assert name[j..j + 2][0] == name[j];
        if j == |stem| + 1 {
          assert name[j] == 'v';
        } else {
          assert name[j] == suffix[j - |stem| - 2];
        }
      }
    }
    assert RFind(name, "_v") == Some(|stem|);
    assert name[|stem| + 2..] == suffix;
  }

  /**
   * The loader's first-`_v` rule: when the stem already holds `_v`, the version of
   * `<stem>_v<suffix>` is "v", then the stem after its first `_v`, then `_v<suffix>`.
   */
  lemma VersionAsWrittenOfSuffix(stem: string, suffix: string, name: string)
    requires Contains(stem, "_v") && name == stem + "_v" + suffix
    ensures VersionAsWritten(name) == "v" + stem[Find(stem, "_v").value + 2..] + "_v" + suffix
  {
    var i := Find(stem, "_v").value;
    var rest := "_v" + suffix;
    assert name == stem + rest;
    FindExtend(stem, rest, "_v");
    assert name[i + 2..] == stem[i + 2..] + rest;
  }

  /** So such a module is never registered under the version its suffix names. */
  lemma VersionAsWrittenMisreads(stem: string, suffix: string, name: string)
    requires Contains(stem, "_v") && '_' !in suffix && name == stem + "_v" + suffix
    ensures VersionAsWritten(name) != Version(name)
  {
    VersionAsWrittenOfSuffix(stem, suffix, name);
    VersionOfSuffix(stem, suffix, name);
    var i := Find(stem, "_v").value;
    assert |VersionAsWritten(name)| == 1 + |stem| - (i + 2) + 2 + |suffix|;
  }

  /** The first `_v` of `plugin_data_validate` is the one of `_validate`. */
  lemma FirstVersionMarkOfValidate(stem: string)
    requires stem == "plugin_data_validate"
    ensures Find(stem, "_v") == Some(11)
  {
    assert OccursAt(stem, "_v", 11) by {
      assert stem[11..13] == "_v";
    }
    assert stem[..12] == "plugin_data_";
    forall j: nat | j < 11 ensures !OccursAt(stem, "_v", j) {
      assert stem[j + 1] in stem[..12];
      assert stem[j..j + 2][1] == stem[j + 1];
    }
    FindFirst(stem, "_v", 11);
  }

  /** `plugin_data_validate_v1` is registered as version `validate_v1` instead of `v1`. */
  lemma VersionAsWrittenExample(name: string)
    requires name == "plugin_data_validate_v1"
    ensures VersionAsWritten(name) == "validate_v1"
    ensures Version(name) == "v1"
  {
    var stem, suffix := ValidateParts(name);
    VersionOfSuffix(stem, suffix, name);
    FirstVersionMarkOfValidate(stem);
    VersionAsWrittenOfSuffix(stem, suffix, name);
    ValidateVersionText(stem, suffix, VersionAsWritten(name));
  }

  /** The stem and suffix of the example, given as opaque values so that the literal is not unfolded. */
  lemma ValidateParts(name: string) returns (stem: string, suffix: string)
    requires name == "plugin_data_validate_v1"
    ensures stem == "plugin_data_validate" && suffix == "1"
    ensures '_' !in suffix && name == stem + "_v" + suffix
  {
    stem, suffix := "plugin_data_validate", "1";
  }

  lemma ValidateVersionText(stem: string, suffix: string, v: string)
    requires stem == "plugin_data_validate" && suffix == "1"
    requires v == "v" + stem[11 + 2..] + "_v" + suffix
    ensures v == "validate_v1"
  {
    assert stem[13..] == "alidate";
  }

  /** What a `.py` file adds to the registry: each callable action under (ref, the file's version), handled by that module. */
  function Registrations(mod: string, ver: string, actions: seq<(string, bool)>): (r: Registry)
    ensures forall key :: key in r <==> key.1 == ver && exists j :: 0 <= j < |actions| && actions[j] == (key.0, true)
    ensures forall key :: key in r ==> r[key] == mod
  {
    if actions == [] then map[]
    else
      var init := actions[..|actions| - 1];
      var r := Registrations(mod, ver, init);
      assert forall j :: 0 <= j < |init| ==> init[j] == actions[j];
      var (actionRef, callable) := actions[|actions| - 1];
      if callable then r[(actionRef, ver) := mod] else r
  }

  function Contribution(f: ActionFile): Registry {
    if Loadable(f) then Registrations(ModuleName(f.name), VersionAsWritten(ModuleName(f.name)), f.actions.value) else map[]
  }

  /** The maps of `ms` written one after the other into an empty dict, a later entry replacing an earlier one. */
  function Overlay<K, V>(ms: seq<map<K, V>>): map<K, V> {
    if ms == [] then map[] else Overlay(ms[..|ms| - 1]) + ms[|ms| - 1]
  }

  /** A key is in the overlay exactly when one of the maps holds it. */
  lemma {:induction false} OverlayMembers<K, V>(ms: seq<map<K, V>>, key: K)
    ensures key in Overlay(ms) <==> exists i :: 0 <= i < |ms| && key in ms[i]
  {
    if ms != [] {
      var init := ms[..|ms| - 1];
      OverlayMembers(init, key);
      if key in Overlay(ms) && key !in ms[|ms| - 1] {
        var i :| 0 <= i < |init| && key in init[i];
        assert ms[i] == init[i];
      }
      if exists i :: 0 <= i < |ms| && key in ms[i] {
        var i :| 0 <= i < |ms| && key in ms[i];
        if i < |init| {
          assert init[i] == ms[i];
        }
      }
    }
  }

  /** A key of the overlay holds the value of the LAST map that has it. */
  lemma {:induction false} OverlayLastWins<K, V>(ms: seq<map<K, V>>, key: K, i: nat)
    requires i < |ms| && key in ms[i]
    requires forall i' :: i < i' < |ms| ==> key !in ms[i']
    ensures key in Overlay(ms) && Overlay(ms)[key] == ms[i][key]
  {
    var init := ms[..|ms| - 1];
    if i < |init| {
      assert init[i] == ms[i];
      forall i' | i < i' < |init| ensures key !in init[i'] {
        assert init[i'] == ms[i'];
      }
      OverlayLastWins(init, key, i);
    }
  }

  /** What each file of the listing adds, in listing order. */
  function Contributions(files: seq<ActionFile>): (cs: seq<Registry>)
    ensures |cs| == |files| && forall i :: 0 <= i < |files| ==> cs[i] == Contribution(files[i])
  {
    seq(|files|, i requires 0 <= i < |files| => Contribution(files[i]))
  }

  /** The registry `_load_actions` builds: the files in listing order, a later registration replacing an earlier one. */
  function RegistryOf(files: seq<ActionFile>): Registry {
    Overlay(Contributions(files))
  }

  /** The inner loop of `_load_actions`: one module's actions written into the registry. */
  method Register(mapping0: Registry, mod: string, ver: string, actions: seq<(string, bool)>) returns (mapping: Registry)
    ensures mapping == mapping0 + Registrations(mod, ver, actions)
  {
    mapping := mapping0;
    for j := 0 to |actions|
      invariant mapping == mapping0 + Registrations(mod, ver, actions[..j])
    {
      assert actions[..j + 1][..j] == actions[..j];
      var (actionRef, callable) := actions[j];
      if callable {
        assert (mapping0 + Registrations(mod, ver, actions[..j]))[(actionRef, ver) := mod]
            == mapping0 + Registrations(mod, ver, actions[..j])[(actionRef, ver) := mod];
        mapping := mapping[(actionRef, ver) := mod];
      }
    }
    assert actions[..|actions|] == actions;
  }

  /** The registry after one more file is the registry before it with that file's registrations written over it. */
  lemma RegistryStep(files: seq<ActionFile>, i: nat)
    requires i < |files|
    ensures RegistryOf(files[..i + 1]) == RegistryOf(files[..i]) + Contribution(files[i])
  {
    assert files[..i + 1][..i] == files[..i];
    assert Contributions(files[..i + 1])[..i] == Contributions(files[..i]);
  }

  /** `_load_actions()` over the listing of the actions directory. */
  method LoadActions(files: seq<ActionFile>) returns (mapping: Registry)
    ensures mapping == RegistryOf(files)
  {
    mapping := map[];
    for i := 0 to |files|
      invariant mapping == RegistryOf(files[..i])
    {
      var f := files[i];
      RegistryStep(files, i);
      if !EndsWith(f.name, ".py") {
        assert Contribution(f) == map[];
        continue;
      }
      var mod := f.name[..|f.name| - 3];
      if StartsWith(mod, "__") || !f.imports || f.actions.None? {
        assert Contribution(f) == map[];
        continue;
      }
      mapping := Register(mapping, mod, VersionAsWritten(mod), f.actions.value);
    }
    assert files[..|files|] == files;
  }

  // ---------------------------------------------------------------------
  // The quarantine list
  // ---------------------------------------------------------------------

  /** A value a Python set can hold: not a list and not a dict. */
  predicate Hashable(v: Value) {
    !v.List? && !v.Obj?
  }

  /**
   * What one line of `quarantine/actions.jsonl` adds: `(actionRef, version or "v1")`; nothing
   * when the line is not JSON (None), is not a dict, or holds an unhashable value.
   */
  function QuarantineEntry(line: Option<Value>): (e: Option<(Value, Value)>)
    ensures e.Some? ==> Hashable(e.value.0) && Hashable(e.value.1) && !Falsy(e.value.1)
  {
    if line.None? || !line.value.Obj? then None
    else
      var entries := line.value.entries;
      var actionRef := if Get(entries, "actionRef").Some? then Get(entries, "actionRef").value else Null;
      var version := if Get(entries, "version").Some? && !Falsy(Get(entries, "version").value)
                     then Get(entries, "version").value else Str("v1");
      if Hashable(actionRef) && Hashable(version) then Some((actionRef, version)) else None
  }

  /** The quarantine set, read line by line; a missing file gives no lines. */
  method LoadQuarantine(lines: seq<Option<Value>>) returns (quarantine: set<(Value, Value)>)
    ensures forall e :: e in quarantine <==> exists i :: 0 <= i < |lines| && QuarantineEntry(lines[i]) == Some(e)
  {
    quarantine := {};
    for i := 0 to |lines|
      invariant forall e :: e in quarantine <==> exists k :: 0 <= k < i && QuarantineEntry(lines[k]) == Some(e)
    {
      var entry := QuarantineEntry(lines[i]);
      if entry.Some? {
        quarantine := quarantine + {entry.value};
      }
    }
  }

  // ---------------------------------------------------------------------
  // Handler choice
  // ---------------------------------------------------------------------

  /** The action refs `_mock_handler` has a mock for. */
  const MockedActions: set<string> := {
    "plugin.http.get", "plugin.http.post", "plugin.files.write", "plugin.transform.jq",
    "plugin.llm.complete", "plugin.sqlite.create_db", "plugin.sqlite.create_table",
    "plugin.sqlite.insert_row", "plugin.sqlite.query"
  }

  /** The command line and environment the runner reads. */
  datatype Settings = Settings(
    /** `--dry-run` */
    dryRun: bool,
    /** `--mode` (default: AUTOMATOR_MODE, else "explore") */
    argsMode: string,
    /** AUTOMATOR_MODE (default "explore"), read again by input resolution */
    envMode: string,
    /** `--mock-io` */
    mockIoFlag: bool,
    /** AUTOMATOR_MOCK_IO == "1" */
    mockIoEnv: bool)

  /** Mocks are on with `--mock-io`, or in verify mode when AUTOMATOR_MOCK_IO is "1". */
  function MockIo(s: Settings): bool {
    s.mockIoFlag || (s.argsMode == "verify" && s.mockIoEnv)
  }

  /** The handler chosen for a node, or the exit code that ends the run. */
  datatype Choice = Chosen(handler: Handler) | Stop(code: int)

  /** The schema version a node asks for: `node.get("schemaVersion", "v1")`. */
  function SchemaVersion(node: Node): Value {
    if node.schemaVersion.Some? then node.schemaVersion.value else Str("v1")
  }

  /** The node names its action by a string. */
  predicate StrRef(node: Node) {
    node.actionRef.Some? && node.actionRef.value.Str?
  }

  /** Some handler can run the action: one registered under (actionRef, version), or a mock when mocks are on. */
  predicate Dispatchable(actionRef: string, version: Value, registry: Registry, mockIo: bool) {
    (version.Str? && (actionRef, version.s) in registry) || (mockIo && actionRef in MockedActions)
  }

  /** The (actionRef, version) pair is on the quarantine list and the mode enforces it. */
  predicate Quarantined(actionRef: string, version: Value, quarantine: set<(Value, Value)>, argsMode: string) {
    (Str(actionRef), version) in quarantine && (argsMode == "verify" || argsMode == "prod")
  }

  /**
   * How the node loop picks a handler: a non-string actionRef stops with 3; an unhashable
   * schema version raises (1); the registered handler, or with mocks on a mock standing in
   * for a missing one, else 3; with mocks on, a mock replaces any handler; a quarantined
   * action stops with 4 in verify and prod mode.
   */
  function SelectHandler(node: Node, registry: Registry, mockIo: bool, quarantine: set<(Value, Value)>, argsMode: string): (c: Choice)
    ensures !StrRef(node) ==> c == Stop(3)
    ensures StrRef(node) ==>
      var actionRef, version := node.actionRef.value.s, SchemaVersion(node);
      && (c == Stop(1) <==> !Hashable(version))
      && (c == Stop(3) <==> Hashable(version) && !Dispatchable(actionRef, version, registry, mockIo))
      && (c == Stop(4) <==> Hashable(version) && Dispatchable(actionRef, version, registry, mockIo)
                            && Quarantined(actionRef, version, quarantine, argsMode))
      && (c == Chosen(Mock(actionRef)) <==> Hashable(version) && mockIo && actionRef in MockedActions
                                            && !Quarantined(actionRef, version, quarantine, argsMode))
      && (c.Chosen? && c.handler.Loaded? <==>
            Hashable(version) && version.Str? && (actionRef, version.s) in registry
            && !(mockIo && actionRef in MockedActions) && !Quarantined(actionRef, version, quarantine, argsMode))
      && (c.Chosen? && c.handler.Loaded? ==>
            version.Str? && (actionRef, version.s) in registry && c.handler == Loaded(registry[(actionRef, version.s)], actionRef))
    ensures c.Chosen? ==> StrRef(node) && (c.handler.Mock? ==> c.handler == Mock(node.actionRef.value.s))
    ensures c.Stop? ==> c.code in {1, 3, 4}
  {
    if node.actionRef.None? || !node.actionRef.value.Str? then Stop(3)
    else
      var actionRef := node.actionRef.value.s;
      var version := SchemaVersion(node);
      if !Hashable(version) then Stop(1)
      else
        var registered := version.Str? && (actionRef, version.s) in registry;
        if !registered && !(mockIo && actionRef in MockedActions) then Stop(3)
        else if (Str(actionRef), version) in quarantine && (argsMode == "verify" || argsMode == "prod") then Stop(4)
        else if mockIo && actionRef in MockedActions then Chosen(Mock(actionRef))
        else Chosen(Loaded(registry[(actionRef, version.s)], actionRef))
  }

  // ---------------------------------------------------------------------
  // _mock_handler
  // ---------------------------------------------------------------------

  /** How many bytes UTF-8 takes for one code point. */
  function Utf8Size(c: char): nat {
    if c as int < 0x80 then 1 else if c as int < 0x800 then 2 else if c as int < 0x10000 then 3 else 4
  }

  /** `len(s.encode('utf-8'))` */
  function Utf8Length(s: string): (n: nat)
    ensures |s| <= n <= 4 * |s|
    ensures (forall i :: 0 <= i < |s| ==> s[i] as int < 0x80) ==> n == |s|
  {
    if s == [] then 0 else Utf8Size(s[0]) + Utf8Length(s[1..])
  }

  /** The two search results the HTTP GET mock answers with. */
  const MockSearch: Value :=
    Obj([("query", Obj([("search", List([Obj([("title", Str("Mock Title 1"))]), Obj([("title", Str("Mock Title 2"))])]))]))])

  /** `inp.get(key)`, where a missing key and JSON null are both None; `inp.get` on a non-dict raises. */
  function InputField(inp: Value, key: string): Result<Option<Value>, PyError> {
    if !inp.Obj? then Err(AttributeError)
    else if Get(inp.entries, key).None? || Get(inp.entries, key).value == Null then Ok(None)
    else Ok(Some(Get(inp.entries, key).value))
  }

  /** The mocks that read their input. */
  const InputReadingMocks: set<string> := {
    "plugin.files.write", "plugin.transform.jq", "plugin.llm.complete",
    "plugin.sqlite.create_db", "plugin.sqlite.create_table"
  }

  /** What the mock for `actionRef` returns on input `inp`. */
  function MockOutput(actionRef: string, inp: Value): (r: Result<Value, PyError>)
    requires actionRef in MockedActions
    ensures r.Ok? ==> r.value.Obj?
    ensures r.Err? <==> actionRef in InputReadingMocks && !inp.Obj?
  {
    if actionRef == "plugin.http.get" then
      Ok(Obj([("status", Int(200)), ("body", MockSearch), ("json", MockSearch)]))
    else if actionRef == "plugin.http.post" then
      Ok(Obj([("status", Int(200)), ("body", Obj([("mock", Bool(true))]))]))
    else if actionRef == "plugin.sqlite.insert_row" then
      Ok(Obj([("status", Str("ok")), ("rowId", Int(1))]))
    else if actionRef == "plugin.sqlite.query" then
      Ok(Obj([("status", Str("ok")), ("rows", List([
        Obj([("id", Int(1)), ("name", Str("Alice"))]),
        Obj([("id", Int(2)), ("name", Str("Bob"))])]))]))
    else if !inp.Obj? then Err(AttributeError)
    else if actionRef == "plugin.files.write" then
      var content := Get(inp.entries, "content");
      Ok(Obj([("bytesWritten", Int(if content.Some? && content.value.Str? then Utf8Length(content.value.s) else 0))]))
    else if actionRef == "plugin.transform.jq" then
      var data := InputField(inp, "data").value;
      Ok(Obj([("result", if data.Some? then data.value else List([]))]))
    else if actionRef == "plugin.llm.complete" then
      var prompt := Get(inp.entries, "prompt");
      Ok(Obj([("text", Str(
        if prompt.Some? && prompt.value.Str?
        then "Mock: " + prompt.value.s[..if |prompt.value.s| < 20 then |prompt.value.s| else 20]
        else "Mock summary"))]))
    else if actionRef == "plugin.sqlite.create_db" then
      var path := Get(inp.entries, "path");
      Ok(Obj([("status", Str("ok")), ("path", if path.Some? && !Falsy(path.value) then path.value else Str("/tmp/mock.sqlite"))]))
    else
      var table := Get(inp.entries, "table");
      Ok(Obj([("status", Str("ok")), ("table", if table.Some? && !Falsy(table.value) then table.value else Str("mock_table"))]))
  }

  /** The files-write mock reports the UTF-8 size of a string content. */
  lemma MockFilesWriteBytes(inp: Value, content: string)
    requires inp.Obj? && Get(inp.entries, "content") == Some(Str(content))
    ensures MockOutput("plugin.files.write", inp) == Ok(Obj([("bytesWritten", Int(Utf8Length(content)))]))
  {
    var r := "plugin.files.write";
    assert |r| == 18;
    assert r != "plugin.http.get" && r != "plugin.http.post" && r != "plugin.sqlite.insert_row" && r != "plugin.sqlite.query";
  }

  /** The LLM mock answers "Mock: " and the first 20 characters of a string prompt (all of a shorter one). */
  lemma MockLlmEchoesPrompt(inp: Value, prompt: string)
    requires inp.Obj? && Get(inp.entries, "prompt") == Some(Str(prompt))
    ensures MockOutput("plugin.llm.complete", inp) == Ok(Obj([("text", Str("Mock: " + prompt[..Min(20, |prompt|)]))]))
  {
    var r := "plugin.llm.complete";
    assert |r| == 19 && r[7] == 'l';
    assert r != "plugin.http.get" && r != "plugin.http.post" && r != "plugin.sqlite.insert_row" && r != "plugin.sqlite.query";
    assert r != "plugin.files.write" && r != "plugin.transform.jq";
  }

  // ---------------------------------------------------------------------
  // Attempts and retries
  // ---------------------------------------------------------------------

  /** How a handler call ended, as the runner's `except` clauses tell them apart. */
  datatype Raise = RaisedRetryable | RaisedPermanent | RaisedOther

  /** What the runner makes of one attempt. */
  datatype Verdict = Succeeded(out: Value) | Retry | Fail

  /**
   * One attempt judged: a permanent error fails the node, any other exception is retried;
   * with a positive timeout, a call that took longer is retried even if it returned; a
   * result that is not a dict fails the node.
   */
  function Judge(r: Result<Value, Raise>, elapsedMs: int, timeoutMs: int): (v: Verdict)
    ensures v.Succeeded? <==> r.Ok? && r.value.Obj? && !(timeoutMs > 0 && elapsedMs > timeoutMs)
    ensures v.Succeeded? ==> v.out == r.value
    ensures v.Fail? <==> r == Err(RaisedPermanent) || (r.Ok? && !r.value.Obj? && !(timeoutMs > 0 && elapsedMs > timeoutMs))
  {
    if r.Err? then (if r.error == RaisedPermanent then Fail else Retry)
    else if timeoutMs > 0 && elapsedMs > timeoutMs then Retry
    else if r.value.Obj? then Succeeded(r.value)
    else Fail
  }

  /** One handler call the run made. */
  datatype Call = Call(nid: string, attempt: nat, verdict: Verdict)

  function Max(a: int, b: int): int { if a < b then b else a }

  function Min(a: int, b: int): int { if a < b then a else b }

  /**
   * The calls the retry loop makes from attempt `a` on: each attempt is judged, and the
   * loop goes on only after a retried attempt below `maxAttempts`.
   */
  function TriesFrom(nid: string, maxAttempts: int, timeoutMs: int, outcome: nat -> (Result<Value, Raise>, int), a: nat): (calls: seq<Call>)
    requires a >= 1
    ensures |calls| >= 1
    decreases Max(a, maxAttempts) - a
  {
    var verdict := Judge(outcome(a).0, outcome(a).1, timeoutMs);
    if verdict.Retry? && a < maxAttempts then [Call(nid, a, verdict)] + TriesFrom(nid, maxAttempts, timeoutMs, outcome, a + 1)
    else [Call(nid, a, verdict)]
  }

  /** The calls from attempt `a` on are numbered from `a`, all but the last retried, and stop at `maxAttempts` at the latest. */
  lemma {:induction false} TriesShape(nid: string, maxAttempts: int, timeoutMs: int, outcome: nat -> (Result<Value, Raise>, int), a: nat)
    requires a >= 1
    ensures var t := TriesFrom(nid, maxAttempts, timeoutMs, outcome, a);
      && |t| <= Max(a, maxAttempts) - a + 1
      && (forall k :: 0 <= k < |t| ==> t[k] == Call(nid, a + k, Judge(outcome(a + k).0, outcome(a + k).1, timeoutMs)))
      && (forall k :: 0 <= k < |t| - 1 ==> t[k].verdict == Retry)
      && (t[|t| - 1].verdict == Retry ==> a + |t| - 1 >= maxAttempts)
    decreases Max(a, maxAttempts) - a
  {
    var verdict := Judge(outcome(a).0, outcome(a).1, timeoutMs);
    if verdict.Retry? && a < maxAttempts {
      TriesShape(nid, maxAttempts, timeoutMs, outcome, a + 1);
      var rest := TriesFrom(nid, maxAttempts, timeoutMs, outcome, a + 1);
      var t := [Call(nid, a, verdict)] + rest;
      assert forall k :: 1 <= k < |t| ==> t[k] == rest[k - 1];
    }
  }

  /** Every call from attempt `a` on is a call of `nid`, and the last one, when it succeeded, returned a dict. */
  lemma TriesOfOne(nid: string, maxAttempts: int, timeoutMs: int, outcome: nat -> (Result<Value, Raise>, int), a: nat)
    requires a >= 1
    ensures var t := TriesFrom(nid, maxAttempts, timeoutMs, outcome, a);
      && (forall k :: 0 <= k < |t| ==> t[k].nid == nid)
      && (t[|t| - 1].verdict.Succeeded? ==> t[|t| - 1].verdict.out.Obj?)
  {
    TriesShape(nid, maxAttempts, timeoutMs, outcome, a);
  }

  /** The calls from the first attempt on are numbered from 1, all but the last retried, and at most `maxAttempts` of them (one at least). */
  lemma TriesFromFirst(nid: string, maxAttempts: int, timeoutMs: int, outcome: nat -> (Result<Value, Raise>, int))
    ensures var calls := TriesFrom(nid, maxAttempts, timeoutMs, outcome, 1);
      && 1 <= |calls| <= Max(1, maxAttempts)
      && (forall a :: 0 <= a < |calls| ==> calls[a] == Call(nid, a + 1, Judge(outcome(a + 1).0, outcome(a + 1).1, timeoutMs)))
      && (forall a :: 0 <= a < |calls| - 1 ==> calls[a].verdict == Retry)
      && (calls[|calls| - 1].verdict == Retry ==> |calls| >= maxAttempts)
  {
    TriesShape(nid, maxAttempts, timeoutMs, outcome, 1);
  }

  /**
   * The retry loop of one node: attempts 1, 2, ... with `outcome(a)` the result and the
   * elapsed milliseconds of attempt `a`, until one succeeds or fails, or `maxAttempts`
   * attempts have been retried (one attempt at least).
   */
  method Attempts(nid: string, maxAttempts: int, timeoutMs: int, outcome: nat -> (Result<Value, Raise>, int))
    returns (calls: seq<Call>, out: Option<Value>)
    ensures calls == TriesFrom(nid, maxAttempts, timeoutMs, outcome, 1)
    ensures 1 <= |calls| <= Max(1, maxAttempts)
    ensures forall a :: 0 <= a < |calls| ==> calls[a] == Call(nid, a + 1, Judge(outcome(a + 1).0, outcome(a + 1).1, timeoutMs))
    ensures forall a :: 0 <= a < |calls| - 1 ==> calls[a].verdict == Retry
    ensures calls[|calls| - 1].verdict == Retry ==> |calls| >= maxAttempts
    ensures out.Some? <==> calls[|calls| - 1].verdict.Succeeded?
    ensures out.Some? ==> out.value == calls[|calls| - 1].verdict.out
  {
    var attempt: nat := 1;
    calls := [];
    while true
      invariant attempt >= 1
      invariant calls + TriesFrom(nid, maxAttempts, timeoutMs, outcome, attempt) == TriesFrom(nid, maxAttempts, timeoutMs, outcome, 1)
      decreases Max(attempt, maxAttempts) - attempt
    {
      var (result, elapsedMs) := outcome(attempt);
      var verdict := JudgeAttempt(result, elapsedMs, timeoutMs);
      TriesStep(nid, maxAttempts, timeoutMs, outcome, attempt);
      if verdict.Succeeded? || verdict == Fail || attempt >= maxAttempts {
        calls := calls + [Call(nid, attempt, verdict)];
        break;
      }
      var rest := TriesFrom(nid, maxAttempts, timeoutMs, outcome, attempt + 1);
      assert calls + ([Call(nid, attempt, verdict)] + rest) == (calls + [Call(nid, attempt, verdict)]) + rest;
      calls := calls + [Call(nid, attempt, verdict)];
      attempt := attempt + 1;
    }
    TriesFromFirst(nid, maxAttempts, timeoutMs, outcome);
    var last := calls[|calls| - 1].verdict;
    out := if last.Succeeded? then Some(last.out) else None;
  }

  /** The `try` of one attempt: which `except` clause, or the dict check, decides it. */
  method JudgeAttempt(result: Result<Value, Raise>, elapsedMs: int, timeoutMs: int) returns (verdict: Verdict)
    ensures verdict == Judge(result, elapsedMs, timeoutMs)
  {
    if result.Err? {
      verdict := if result.error == RaisedPermanent then Fail else Retry;
    } else if timeoutMs > 0 && elapsedMs > timeoutMs {
      verdict := Retry;
    } else if !result.value.Obj? {
      verdict := Fail;
    } else {
      verdict := Succeeded(result.value);
    }
  }

  /** One attempt of the retry loop: the last one unless it is retried below `maxAttempts`. */
  lemma TriesStep(nid: string, maxAttempts: int, timeoutMs: int, outcome: nat -> (Result<Value, Raise>, int), a: nat)
    requires a >= 1
    ensures var verdict := Judge(outcome(a).0, outcome(a).1, timeoutMs);
      TriesFrom(nid, maxAttempts, timeoutMs, outcome, a)
      == if verdict.Retry? && a < maxAttempts then [Call(nid, a, verdict)] + TriesFrom(nid, maxAttempts, timeoutMs, outcome, a + 1)
         else [Call(nid, a, verdict)]
  {
  }

  /** What calling a loaded handler on a node and its resolved input at a given attempt returns. */
  type Handlers = (Handler, Node, Value, nat) -> Result<Value, Raise>

  /** The wall time, in milliseconds, that an attempt of a node takes. */
  type Clock = (string, nat) -> int

  /** A handler called on a node's resolved input: a mock computes its answer, a loaded handler's is given. */
  function Invoke(h: Handler, node: Node, inp: Value, attempt: nat, handlers: Handlers): Result<Value, Raise>
    requires h.Mock? ==> h.actionRef in MockedActions
  {
    if h.Mock? then
      var r := MockOutput(h.actionRef, inp);
      if r.Ok? then Ok(r.value) else Err(RaisedOther)
    else handlers(h, node, inp, attempt)
  }

  // ---------------------------------------------------------------------
  // main
  // ---------------------------------------------------------------------

  /** `node.get("input") or {}` */
  function NodeInput(node: Node): Value {
    if node.input.None? || Falsy(node.input.value) then Obj([]) else node.input.value
  }

  /** What a dry run stores for a node. */
  const DryRunOutput: Value := Obj([("dryRun", Bool(true))])

  /** `_topo_order` as `main` uses it: the order to run the nodes in, and whether it holds every node. */
  method Schedule(nodes: seq<Node>) returns (order: seq<string>, ok: bool)
    ensures ok <==> Schedulable(nodes)
    ensures ok ==> Elems(order) == IdSet(nodes)
    ensures forall i :: 0 <= i < |order| ==> Ready(nodes, order[i], order[..i])
  {
    var cycles;
    order, cycles := TopoOrder(nodes);
    ok := cycles == [];
    if ok {
      assert forall x :: x in IdSet(nodes) ==> x in order;
    }
  }

  /** What the node loop works with besides the nodes: the registry, the quarantine set, the settings, the handlers and the clock. */
  datatype Env = Env(registry: Registry, quarantine: set<(Value, Value)>, s: Settings, handlers: Handlers, clock: Clock)

  /** Every call runs a node of the workflow. */
  ghost predicate CallsKnown(ids: set<string>, calls: seq<Call>) {
    forall k :: 0 <= k < |calls| ==> calls[k].nid in ids
  }

  /** Every call comes after a successful call of each dependency of the node it runs. */
  ghost predicate Causal(byId: map<string, Node>, calls: seq<Call>) {
    forall k, d :: 0 <= k < |calls| && calls[k].nid in byId && d in byId[calls[k].nid].dependsOn ==>
      exists j :: 0 <= j < k && calls[j].nid == d && calls[j].verdict.Succeeded?
  }

  /** Each stored output is what a successful call of that node returned. */
  ghost predicate Recorded(context: Context, calls: seq<Call>) {
    forall x :: x in context ==> exists j :: 0 <= j < |calls| && calls[j].nid == x && calls[j].verdict == Succeeded(context[x])
  }

  /** Attempt `a` of a node: what its handler returns on the resolved input, and how long the clock says it took. */
  function NodeOutcome(nid: string, node: Node, h: Handler, inp: Value, handlers: Handlers, clock: Clock): nat -> (Result<Value, Raise>, int)
    requires h.Mock? ==> h.actionRef in MockedActions
  {
    (a: nat) => (Invoke(h, node, inp, a, handlers), clock(nid, a))
  }

  /** The calls the retry loop makes for a node, with the node's own retry and timeout settings. */
  function NodeTries(nid: string, node: Node, h: Handler, inp: Value, handlers: Handlers, clock: Clock): (calls: seq<Call>)
    requires h.Mock? ==> h.actionRef in MockedActions
    ensures |calls| >= 1
  {
    TriesFrom(nid, node.maxAttempts, node.timeoutMs, NodeOutcome(nid, node, h, inp, handlers, clock), 1)
  }

  /**
   * One pass of the node loop for `nid`, after the outputs `context` and the calls `calls`:
   * the exit code (0 when the loop goes on), then the outputs and the calls.
   */
  function NodeStep(nid: string, node: Node, e: Env, context: Context, calls: seq<Call>): (int, Context, seq<Call>) {
    Dispatch(nid, node, SelectHandler(node, e.registry, MockIo(e.s), e.quarantine, e.s.argsMode),
             ResolveInput(NodeInput(node), context, e.s.envMode), e, context, calls)
  }

  /**
   * A pass given the handler choice and what the node's input resolves to, which is only
   * looked at when the handler is chosen and the run is not dry. A handler that cannot be
   * chosen stops the run with its code; a dry run stores the marker without calling
   * anything; an input that does not resolve stops with 4 before any call; else the retry
   * loop runs and its last call decides.
   */
  function Dispatch(nid: string, node: Node, choice: Choice, resolved: Result<Value, Failure>, e: Env,
                    context: Context, calls: seq<Call>): (int, Context, seq<Call>)
    requires choice.Chosen? && choice.handler.Mock? ==> choice.handler.actionRef in MockedActions
  {
    if choice.Stop? then (choice.code, context, calls)
    else if e.s.dryRun then (0, context[nid := DryRunOutput], calls)
    else if resolved.Err? then (4, context, calls)
    else Finish(nid, NodeTries(nid, node, choice.handler, resolved.value, e.handlers, e.clock), context, calls)
  }

  /** After the retry loop of `nid`: its calls are logged, and the output of the last one is stored when it succeeded; otherwise the run stops with 4. */
  function Finish(nid: string, tries: seq<Call>, context: Context, calls: seq<Call>): (int, Context, seq<Call>)
    requires |tries| >= 1
  {
    var last := tries[|tries| - 1].verdict;
    if last.Succeeded? then (0, context[nid := last.out], calls + tries) else (4, context, calls + tries)
  }

  /** What one pass of the node loop does to the exit code, the outputs and the calls, given the id it runs. */
  type Pass = (string, Context, seq<Call>) -> (int, Context, seq<Call>)

  /**
   * The pass `main` runs for an id of the workflow. The schedule holds only ids of the
   * workflow; any other id is taken to leave everything as it is.
   */
  function NodePass(byId: map<string, Node>, e: Env): Pass {
    (nid: string, context: Context, calls: seq<Call>) =>
      if nid in byId then NodeStep(nid, byId[nid], e, context, calls) else (0, context, calls)
  }

  /** The node loop over `order`: one pass per id in turn, up to the first pass that stops the run. */
  function Loop(pass: Pass, order: seq<string>, context: Context, calls: seq<Call>): (int, Context, seq<Call>)
    decreases |order|
  {
    if order == [] then (0, context, calls)
    else
      var step := pass(order[0], context, calls);
      if step.0 != 0 then step else Loop(pass, order[1..], step.1, step.2)
  }

  /** The loop over the ids from position `i` on is the pass of the `i`-th id, then the loop over the rest. */
  lemma LoopAt(pass: Pass, order: seq<string>, i: nat, context: Context, calls: seq<Call>)
    requires i < |order|
    ensures var step := pass(order[i], context, calls);
      Loop(pass, order[i..], context, calls)
      == if step.0 != 0 then step else Loop(pass, order[i + 1..], step.1, step.2)
  {
    assert order[i..][0] == order[i] && order[i..][1..] == order[i + 1..];
  }

  /**
   * The loop over `order + rest` is the loop over `order`, then, only when that went on,
   * the loop over `rest` from where it left off: once a pass stops the run, no later id runs.
   */
  lemma {:induction false} LoopAppend(pass: Pass, order: seq<string>, rest: seq<string>, context: Context, calls: seq<Call>)
    ensures var r := Loop(pass, order, context, calls);
      Loop(pass, order + rest, context, calls) == if r.0 != 0 then r else Loop(pass, rest, r.1, r.2)
    decreases |order|
  {
    if order == [] {
      assert order + rest == rest;
    } else {
      assert (order + rest)[0] == order[0] && (order + rest)[1..] == order[1..] + rest;
      var step := pass(order[0], context, calls);
      if step.0 == 0 {
        LoopAppend(pass, order[1..], rest, step.1, step.2);
      }
    }
  }

  /**
   * The node loop of `main` on a parsed IR (`isProcess`: its `kind` is "process").
   * It stops with 2 on an invalid IR or no nodes and with 3, before calling anything, when
   * the workflow cannot run to completion in any order. Otherwise it runs the node loop over
   * the order `_topo_order` gives. A successful run stores an output dict for every node id.
   * Every handler call comes after a successful call of each dependency of the node it runs,
   * and a dry run calls nothing.
   */
  method Run(isProcess: bool, nodes: seq<Node>, e: Env) returns (code: int, context: Context, calls: seq<Call>, order: seq<string>)
    ensures code in {0, 1, 2, 3, 4}
    ensures !isProcess || nodes == [] ==> code == 2 && calls == []
    ensures isProcess && nodes != [] && !Schedulable(nodes) ==> code == 3 && calls == []
    ensures isProcess && nodes != [] && Schedulable(nodes) ==>
      && Elems(order) == IdSet(nodes) && (forall i :: 0 <= i < |order| ==> Ready(nodes, order[i], order[..i]))
      && (code, context, calls) == Loop(NodePass(IdToNode(nodes), e), order, map[], [])
    ensures code == 0 ==> Schedulable(nodes) && context.Keys == IdSet(nodes) && forall x :: x in context ==> context[x].Obj?
    ensures code == 0 && !e.s.dryRun ==> Recorded(context, calls)
    ensures e.s.dryRun ==> calls == []
    ensures CallsKnown(IdSet(nodes), calls) && Causal(IdToNode(nodes), calls)
  {
    context, calls, order := map[], [], [];
    if !isProcess || nodes == [] {
      return 2, context, calls, order;
    }
    var ok;
    order, ok := Schedule(nodes);
    if !ok {
      return 3, context, calls, order;
    }
    code, context, calls := RunOrder(nodes, order, e);
  }

  /** The node loop proper, over the ids in scheduled order. */
  method RunOrder(nodes: seq<Node>, order: seq<string>, e: Env) returns (code: int, context: Context, calls: seq<Call>)
    requires Elems(order) == IdSet(nodes)
    requires forall i :: 0 <= i < |order| ==> Ready(nodes, order[i], order[..i])
    ensures (code, context, calls) == Loop(NodePass(IdToNode(nodes), e), order, map[], [])
    ensures code in {0, 1, 3, 4}
    ensures code == 0 ==> context.Keys == IdSet(nodes) && forall x :: x in context ==> context[x].Obj?
    ensures code == 0 && !e.s.dryRun ==> Recorded(context, calls)
    ensures e.s.dryRun ==> calls == []
    ensures CallsKnown(IdSet(nodes), calls) && Causal(IdToNode(nodes), calls)
  {
    context, calls := map[], [];
    var idToNode := IdToNode(nodes);
    var pass := NodePass(idToNode, e);
    forall k | 0 <= k < |order| ensures order[k] in idToNode {
      assert order[k] in Elems(order);
    }
    assert order[..0] == [] && order[0..] == order;
    NodePassKeeps(nodes, e);
    LoopKeeps(nodes, order, 0, e.s.dryRun, pass, context, calls);
    for i := 0 to |order|
      invariant Loop(pass, order[i..], context, calls) == Loop(pass, order, map[], [])
    {
      LoopAt(pass, order, i, context, calls);
      var stop;
      stop, context, calls := RunNode(order[i], idToNode[order[i]], e, context, calls);
      if stop != 0 {
        return stop, context, calls;
      }
    }
    assert order[|order|..] == [];
    return 0, context, calls;
  }

  /**
   * The pass run on `nid`, a node of the workflow whose dependencies have outputs, keeps what
   * the loop promises: a pass that goes on adds the node's dict output and changes no other;
   * a dry run calls nothing; stored outputs stay backed by calls; and every call follows
   * successful calls of the dependencies of its node.
   */
  ghost predicate KeepsAt(nodes: seq<Node>, dryRun: bool, pass: Pass, nid: string, context0: Context, calls0: seq<Call>) {
    && nid in IdSet(nodes)
    && (forall d :: d in IdToNode(nodes)[nid].dependsOn ==> d in context0)
    && (dryRun ==> calls0 == [])
    && (!dryRun ==> Recorded(context0, calls0))
    && CallsKnown(IdSet(nodes), calls0) && Causal(IdToNode(nodes), calls0)
    ==>
    var (stop, context, calls) := pass(nid, context0, calls0);
    && stop in {0, 1, 3, 4}
    && (stop == 0 ==> context.Keys == context0.Keys + {nid} && context[nid].Obj?
                      && forall x :: x in context0 && x != nid ==> context[x] == context0[x])
    && (dryRun ==> calls == [])
    && (stop == 0 && !dryRun ==> Recorded(context, calls))
    && CallsKnown(IdSet(nodes), calls) && Causal(IdToNode(nodes), calls)
  }

  /** The pass keeps what the loop promises wherever it runs. */
  ghost predicate PassKeeps(nodes: seq<Node>, dryRun: bool, pass: Pass) {
    forall nid, context0, calls0 :: KeepsAt(nodes, dryRun, pass, nid, context0, calls0)
  }

  /** The pass `main` runs keeps what the loop promises. */
  lemma NodePassKeeps(nodes: seq<Node>, e: Env)
    ensures PassKeeps(nodes, e.s.dryRun, NodePass(IdToNode(nodes), e))
  {
    var pass := NodePass(IdToNode(nodes), e);
    forall nid, context0, calls0 ensures KeepsAt(nodes, e.s.dryRun, pass, nid, context0, calls0) {
      if && nid in IdSet(nodes)
         && (forall d :: d in IdToNode(nodes)[nid].dependsOn ==> d in context0)
         && (e.s.dryRun ==> calls0 == [])
         && (!e.s.dryRun ==> Recorded(context0, calls0))
         && CallsKnown(IdSet(nodes), calls0) && Causal(IdToNode(nodes), calls0)
      {
        var node := IdToNode(nodes)[nid];
        var choice := SelectHandler(node, e.registry, MockIo(e.s), e.quarantine, e.s.argsMode);
        var resolved := ResolveInput(NodeInput(node), context0, e.s.envMode);
        assert pass(nid, context0, calls0) == Dispatch(nid, node, choice, resolved, e, context0, calls0);
        DispatchKeeps(nodes, nid, choice, resolved, e, context0, calls0);
      }
    }
  }

  /**
   * The node loop from the `i`-th scheduled id on, started in a state the loop before it
   * can reach, keeps what `main` promises of any pass that keeps it: a run that ends with 0
   * has stored a dict for every node, each backed by a successful call; a dry run calls
   * nothing; and every call follows successful calls of the dependencies of its node.
   */
  lemma {:induction false} LoopKeeps(nodes: seq<Node>, order: seq<string>, i: nat, dryRun: bool, pass: Pass,
                                     context0: Context, calls0: seq<Call>)
    requires PassKeeps(nodes, dryRun, pass)
    requires i <= |order| && Elems(order) == IdSet(nodes)
    requires forall k :: 0 <= k < |order| ==> Ready(nodes, order[k], order[..k])
    requires context0.Keys == Elems(order[..i]) && forall x :: x in context0 ==> context0[x].Obj?
    requires dryRun ==> calls0 == []
    requires !dryRun ==> Recorded(context0, calls0)
    requires CallsKnown(IdSet(nodes), calls0) && Causal(IdToNode(nodes), calls0)
    ensures var (code, context, calls) := Loop(pass, order[i..], context0, calls0);
      && code in {0, 1, 3, 4}
      && (code == 0 ==> context.Keys == IdSet(nodes) && forall x :: x in context ==> context[x].Obj?)
      && (code == 0 && !dryRun ==> Recorded(context, calls))
      && (dryRun ==> calls == [])
      && CallsKnown(IdSet(nodes), calls) && Causal(IdToNode(nodes), calls)
    decreases |order| - i
  {
    if i == |order| {
      assert order[i..] == [] && order[..i] == order;
    } else {
      ElemsPrefixStep(order, i);
      DependenciesDone(nodes, order, i, context0);
      LoopAt(pass, order, i, context0, calls0);
      assert KeepsAt(nodes, dryRun, pass, order[i], context0, calls0);
      var step := pass(order[i], context0, calls0);
      if step.0 == 0 {
        LoopKeeps(nodes, order, i + 1, dryRun, pass, step.1, step.2);
      }
    }
  }

  /**
   * A pass of the node loop keeps what the loop promises, whatever handler choice and
   * resolved input it is given: a pass that goes on adds the node's dict output, backed by
   * its last call, and changes no other output; a dry run calls nothing; and every call
   * follows successful calls of the dependencies of its node.
   */
  lemma DispatchKeeps(nodes: seq<Node>, nid: string, choice: Choice, resolved: Result<Value, Failure>, e: Env,
                      context0: Context, calls0: seq<Call>)
    requires nid in IdSet(nodes)
    requires choice.Chosen? && choice.handler.Mock? ==> choice.handler.actionRef in MockedActions
    requires choice.Stop? ==> choice.code in {1, 3, 4}
    requires forall d :: d in IdToNode(nodes)[nid].dependsOn ==> d in context0
    requires e.s.dryRun ==> calls0 == []
    requires !e.s.dryRun ==> Recorded(context0, calls0)
    requires CallsKnown(IdSet(nodes), calls0) && Causal(IdToNode(nodes), calls0)
    ensures var (stop, context, calls) := Dispatch(nid, IdToNode(nodes)[nid], choice, resolved, e, context0, calls0);
      && stop in {0, 1, 3, 4}
      && (stop == 0 ==> context.Keys == context0.Keys + {nid} && context[nid].Obj?
                        && forall x :: x in context0 && x != nid ==> context[x] == context0[x])
      && (e.s.dryRun ==> calls == [])
      && (stop == 0 && !e.s.dryRun ==> Recorded(context, calls))
      && CallsKnown(IdSet(nodes), calls) && Causal(IdToNode(nodes), calls)
  {
    if choice.Chosen? && !e.s.dryRun && resolved.Ok? {
      var node, h := IdToNode(nodes)[nid], choice.handler;
      TriesOfOne(nid, node.maxAttempts, node.timeoutMs, NodeOutcome(nid, node, h, resolved.value, e.handlers, e.clock), 1);
      FinishKeeps(nodes, nid, NodeTries(nid, node, h, resolved.value, e.handlers, e.clock), context0, calls0);
    }
  }

  /**
   * The calls of a node's retry loop, made once its dependencies have outputs, keep the
   * call history causal and about known nodes; a pass that goes on stores the dict of its
   * last, successful call, which keeps every output backed by a call.
   */
  lemma FinishKeeps(nodes: seq<Node>, nid: string, tries: seq<Call>, context0: Context, calls0: seq<Call>)
    requires nid in IdSet(nodes)
    requires |tries| >= 1 && forall k :: 0 <= k < |tries| ==> tries[k].nid == nid
    requires tries[|tries| - 1].verdict.Succeeded? ==> tries[|tries| - 1].verdict.out.Obj?
    requires forall d :: d in IdToNode(nodes)[nid].dependsOn ==> d in context0
    requires Recorded(context0, calls0)
    requires CallsKnown(IdSet(nodes), calls0) && Causal(IdToNode(nodes), calls0)
    ensures var (stop, context, calls) := Finish(nid, tries, context0, calls0);
      && stop in {0, 4}
      && (stop == 0 ==> context.Keys == context0.Keys + {nid} && context[nid].Obj?
                        && (forall x :: x in context0 && x != nid ==> context[x] == context0[x])
                        && Recorded(context, calls))
      && CallsKnown(IdSet(nodes), calls) && Causal(IdToNode(nodes), calls)
  {
    forall d | d in IdToNode(nodes)[nid].dependsOn
      ensures exists j :: 0 <= j < |calls0| && calls0[j].nid == d && calls0[j].verdict.Succeeded?
    {
      var j :| 0 <= j < |calls0| && calls0[j].nid == d && calls0[j].verdict == Succeeded(context0[d]);
    }
    AppendCausal(IdToNode(nodes), calls0, tries, nid);
    AppendKnown(IdSet(nodes), calls0, tries, nid);
    var last := tries[|tries| - 1].verdict;
    if last.Succeeded? {
      RecordAppend(context0, calls0, tries, nid, last.out);
    }
  }

  /**
   * One pass of the node loop: choose the handler, store the dry-run marker or resolve the
   * input and call the handler with retries, and store its output. `stop` is 0 when the
   * loop goes on, else the exit code.
   */
  method RunNode(nid: string, node: Node, e: Env, context0: Context, calls0: seq<Call>)
    returns (stop: int, context: Context, calls: seq<Call>)
    ensures (stop, context, calls) == NodeStep(nid, node, e, context0, calls0)
    ensures var choice := SelectHandler(node, e.registry, MockIo(e.s), e.quarantine, e.s.argsMode);
      var resolved := ResolveInput(NodeInput(node), context0, e.s.envMode);
      && (choice.Stop? ==> stop == choice.code && context == context0 && calls == calls0)
      && (choice.Chosen? && e.s.dryRun ==> stop == 0 && context == context0[nid := DryRunOutput] && calls == calls0)
      && (choice.Chosen? && !e.s.dryRun && resolved.Err? ==> stop == 4 && context == context0 && calls == calls0)
      && (choice.Chosen? && !e.s.dryRun && resolved.Ok? ==>
            var tries := NodeTries(nid, node, choice.handler, resolved.value, e.handlers, e.clock);
            calls == calls0 + tries && (stop == 0 <==> tries[|tries| - 1].verdict.Succeeded?))
  {
    context, calls := context0, calls0;
    var choice := SelectHandler(node, e.registry, MockIo(e.s), e.quarantine, e.s.argsMode);
    if choice.Stop? {
      return choice.code, context, calls;
    }
    if e.s.dryRun {
      context := context[nid := DryRunOutput];
      return 0, context, calls;
    }
    var resolved := ResolveInput(NodeInput(node), context, e.s.envMode);
    if resolved.Err? {
      return 4, context, calls;
    }
    var outcome := NodeOutcome(nid, node, choice.handler, resolved.value, e.handlers, e.clock);
    stop, context, calls := CallNode(nid, node.maxAttempts, node.timeoutMs, outcome, context, calls);
  }

  /**
   * The retry loop of one node and what follows it: every attempt is logged, and the output of
   * the last attempt is stored when it succeeded; otherwise `stop` is 4.
   */
  method CallNode(nid: string, maxAttempts: int, timeoutMs: int, outcome: nat -> (Result<Value, Raise>, int),
                  context0: Context, calls0: seq<Call>)
    returns (stop: int, context: Context, calls: seq<Call>)
    ensures var tries := TriesFrom(nid, maxAttempts, timeoutMs, outcome, 1);
      var last := tries[|tries| - 1].verdict;
      && calls == calls0 + tries
      && (stop == 0 <==> last.Succeeded?)
      && (last.Succeeded? ==> context == context0[nid := last.out])
      && (!last.Succeeded? ==> stop == 4 && context == context0)
  {
    var tries, out := Attempts(nid, maxAttempts, timeoutMs, outcome);
    calls := calls0 + tries;
    if out.None? {
      return 4, context0, calls;
    }
    return 0, context0[nid := out.value], calls;
  }

  /** When the `i`-th scheduled id runs, each dependency of its node has an output. */
  lemma DependenciesDone(nodes: seq<Node>, order: seq<string>, i: nat, context: Context)
    requires i < |order| && Elems(order) == IdSet(nodes)
    requires forall i :: 0 <= i < |order| ==> Ready(nodes, order[i], order[..i])
    requires context.Keys == Elems(order[..i])
    ensures order[i] in IdSet(nodes)
    ensures forall d :: d in IdToNode(nodes)[order[i]].dependsOn ==> d in context
  {
    var x := order[i];
    assert x in Elems(order);
    var k := LastWithId(nodes, x);
    assert Ready(nodes, order[i], order[..i]);
    assert Satisfied(nodes[k].dependsOn, order[..i]);
    forall d | d in IdToNode(nodes)[x].dependsOn ensures d in context {
      assert d in order[..i];
      assert d in Elems(order[..i]);
    }
  }

  /** The calls of one node, made once its dependencies have succeeded, keep the order of calls causal. */
  lemma AppendCausal(byId: map<string, Node>, before: seq<Call>, tries: seq<Call>, nid: string)
    requires Causal(byId, before)
    requires forall a :: 0 <= a < |tries| ==> tries[a].nid == nid
    requires nid in byId ==> forall d :: d in byId[nid].dependsOn ==>
               exists j :: 0 <= j < |before| && before[j].nid == d && before[j].verdict.Succeeded?
    ensures Causal(byId, before + tries)
  {
    var calls := before + tries;
    forall k, d | 0 <= k < |calls| && calls[k].nid in byId && d in byId[calls[k].nid].dependsOn
      ensures exists j :: 0 <= j < k && calls[j].nid == d && calls[j].verdict.Succeeded?
    {
      if k < |before| {
        assert calls[k] == before[k];
        var j :| 0 <= j < k && before[j].nid == d && before[j].verdict.Succeeded?;
        assert calls[j] == before[j];
      } else {
        assert calls[k] == tries[k - |before|];
        var j :| 0 <= j < |before| && before[j].nid == d && before[j].verdict.Succeeded?;
        assert calls[j] == before[j];
      }
    }
  }

  /** Calls of a known node keep every logged call about a known node. */
  lemma AppendKnown(ids: set<string>, before: seq<Call>, tries: seq<Call>, nid: string)
    requires CallsKnown(ids, before) && nid in ids
    requires forall a :: 0 <= a < |tries| ==> tries[a].nid == nid
    ensures CallsKnown(ids, before + tries)
  {
    var calls := before + tries;
    forall k | 0 <= k < |calls| ensures calls[k].nid in ids {
      if k < |before| {
        assert calls[k] == before[k];
      } else {
        assert calls[k] == tries[k - |before|];
      }
    }
  }

  /** Storing the output of a node's last, successful call keeps every stored output backed by a call. */
  lemma RecordAppend(context: Context, before: seq<Call>, tries: seq<Call>, nid: string, out: Value)
    requires Recorded(context, before)
    requires |tries| > 0 && tries[|tries| - 1].nid == nid && tries[|tries| - 1].verdict == Succeeded(out)
    ensures Recorded(context[nid := out], before + tries)
  {
    var calls := before + tries;
    assert calls[|calls| - 1] == tries[|tries| - 1];
    forall x | x in context && x != nid
      ensures exists j :: 0 <= j < |calls| && calls[j].nid == x && calls[j].verdict == Succeeded(context[x])
    {
      var j :| 0 <= j < |before| && before[j].nid == x && before[j].verdict == Succeeded(context[x]);
      assert calls[j] == before[j];
    }
  }
}
