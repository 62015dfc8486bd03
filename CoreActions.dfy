/**
 * The small fixed-shape action handlers: `plugin.core.echo`, `plugin.core.timeout`
 * and the four `plugin.sqlite.*` stubs, which never touch a database and only format
 * a result dict from the input's `text` field.
 */
module CoreActions {
  import opened Wrappers
  import opened Text
  import opened Json

  // ---------------------------------------------------------------------
  // plugin.core.echo
  // ---------------------------------------------------------------------

  const NoResult: string := "(no result)"

  /** The message after coercion: a string is kept, None (or a missing key) is `""`, anything else is `str()`-ed. */
  function Coerce(message: Option<Value>): string {
    if message.None? || message.value.Null? then ""
    else if message.value.Str? then message.value.s
    else PyStr(message.value)
  }

  /** A string is blank when `strip()` leaves nothing of it. */
  predicate Blank(s: string) {
    Strip(s) == ""
  }

  /** `handler` of plugin_core_echo_v1: the message, or `"(no result)"` when it is blank. */
  function Echo(inp: Value): (r: Result<Value, PyError>)
    ensures inp.Obj? <==> r.Ok?
    ensures r.Ok? ==> r.value.Obj? && |r.value.entries| == 1 && r.value.entries[0].0 == "message"
  {
    if !inp.Obj? then Err(AttributeError)
    else
      var m := Coerce(Get(inp.entries, "message"));
      Ok(Obj([("message", Str(if Blank(m) then NoResult else m))]))
  }

  /** A string message with something other than white space in it is echoed unchanged. */
  lemma EchoKeeps(inp: Value, s: string)
    requires inp.Obj? && Get(inp.entries, "message") == Some(Str(s))
    requires exists i :: 0 <= i < |s| && !IsSpace(s[i])
    ensures Echo(inp) == Ok(Obj([("message", Str(s))]))
  {
    StripWithEmpty(s, IsSpace);
  }

  /** A missing or None message, or a string of white space only, becomes `"(no result)"`. */
  lemma EchoDefault(inp: Value)
    requires inp.Obj?
    requires var m := Get(inp.entries, "message");
             m.None? || m.value.Null? || (m.value.Str? && forall i :: 0 <= i < |m.value.s| ==> IsSpace(m.value.s[i]))
    ensures Echo(inp) == Ok(Obj([("message", Str(NoResult))]))
  {
    var m := Get(inp.entries, "message");
    if m.Some? && m.value.Str? {
      StripWithEmpty(m.value.s, IsSpace);
    }
  }

  /** The echoed message is never blank, whatever the input holds. */
  lemma EchoNeverBlank(inp: Value)
    requires inp.Obj?
    ensures Echo(inp).value.entries[0].1.Str? && !Blank(Echo(inp).value.entries[0].1.s)
  {
    var m := Get(inp.entries, "message");
    var c := Coerce(m);
    if m.Some? && !m.value.Null? && !m.value.Str? {
      PyStrStartsVisible(m.value);
      StripWithEmpty(c, IsSpace);
    }
    StripWithEmpty(NoResult, IsSpace);
    assert !IsSpace(NoResult[0]);
  }

  // ---------------------------------------------------------------------
  // plugin.core.timeout
  // ---------------------------------------------------------------------

  const TimedOut: string := " timed out"

  /**
   * `handler` of plugin_core_timeout_v1: `text` followed by `" timed out"`; a missing
   * `text` is a ValueError and a `text` that is not a string cannot be concatenated.
   */
  function Timeout(inp: Value): (r: Result<Value, PyError>)
    ensures inp.Obj? && Get(inp.entries, "text").None? ==> r == Err(ValueError("Input must contain 'text' field"))
    ensures inp.Str? || inp.List? ==> r == Err(if PyIn(inp, "text") then TypeError else ValueError("Input must contain 'text' field"))
    ensures inp.Null? || inp.Bool? || inp.Int? ==> r == Err(TypeError)
    ensures inp.Obj? && Get(inp.entries, "text").Some? && !Get(inp.entries, "text").value.Str? ==> r == Err(TypeError)
    ensures inp.Obj? && Get(inp.entries, "text").Some? && Get(inp.entries, "text").value.Str? ==>
      r == Ok(Obj([("text", Str(Get(inp.entries, "text").value.s + TimedOut))]))
    ensures r.Ok? ==>
      && inp.Obj? && Get(inp.entries, "text").Some? && Get(inp.entries, "text").value.Str?
      && var t := Get(inp.entries, "text").value.s;
      && r.value.Obj? && |r.value.entries| == 1 && r.value.entries[0].0 == "text"
      && r.value.entries[0].1.Str?
      && var out := r.value.entries[0].1.s;
      && |out| == |t| + 10 && out[..|t|] == t && out[|t|..] == TimedOut
  {
    match RequireField(inp, "text", "Input must contain 'text' field")
    case Err(e) => Err(e)
    case Ok(t) => if t.Str? then Ok(Obj([("text", Str(t.s + TimedOut))])) else Err(TypeError)
  }

  /**
   * `'text' not in resolved_input` on a string is a substring test and on a list a membership
   * test: `"abc"` and `["x"]` raise the ValueError, `"subtext"` passes and fails at the subscript.
   */
  lemma TimeoutOnNonDicts()
    ensures Timeout(Str("abc")) == Err(ValueError("Input must contain 'text' field"))
    ensures Timeout(List([Str("x")])) == Err(ValueError("Input must contain 'text' field"))
    ensures Timeout(Str("subtext")) == Err(TypeError)
  {
    assert OccursAt("subtext", "text", 3);
  }

  // ---------------------------------------------------------------------
  // plugin.sqlite.*
  // ---------------------------------------------------------------------

  const Required: string := "Invalid input: 'text' field is required"

  /** `handler` of plugin_sqlite_query_v1: `{"text": text}`. */
  function SqliteQuery(inp: Value): (r: Result<Value, PyError>)
    ensures inp.Obj? && Get(inp.entries, "text").None? ==> r == Err(ValueError(Required))
    ensures inp.Str? || inp.List? ==> r == Err(if PyIn(inp, "text") then TypeError else ValueError(Required))
    ensures inp.Null? || inp.Bool? || inp.Int? ==> r == Err(TypeError)
    ensures inp.Obj? && Get(inp.entries, "text").Some? ==> r == Ok(Obj([("text", Get(inp.entries, "text").value)]))
  {
    match RequireField(inp, "text", Required)
    case Err(e) => Err(e)
    case Ok(t) => Ok(Obj([("text", t)]))
  }

  /** `handler` of plugin_sqlite_insert_row_v1: status, the text itself, and a message naming it. */
  function SqliteInsertRow(inp: Value): (r: Result<Value, PyError>)
    ensures inp.Obj? && Get(inp.entries, "text").None? ==> r == Err(ValueError(Required))
    ensures inp.Str? || inp.List? ==> r == Err(if PyIn(inp, "text") then TypeError else ValueError(Required))
    ensures inp.Null? || inp.Bool? || inp.Int? ==> r == Err(TypeError)
    ensures inp.Obj? && Get(inp.entries, "text").Some? ==>
      var t := Get(inp.entries, "text").value;
      && r.Ok? && r.value.Obj? && Keys(r.value.entries) == ["status", "text", "message"]
      && r.value.entries[0].1 == Str("success")
      && r.value.entries[1].1 == t
      && r.value.entries[2].1 == Str("Inserted row with text: " + PyStr(t))
  {
    match RequireField(inp, "text", Required)
    case Err(e) => Err(e)
    case Ok(t) =>
      Ok(Obj([("status", Str("success")), ("text", t), ("message", Str("Inserted row with text: " + PyStr(t)))]))
  }

  /** `handler` of plugin_sqlite_create_table_v1: a message naming the input text. */
  function SqliteCreateTable(inp: Value): (r: Result<Value, PyError>)
    ensures inp.Obj? && Get(inp.entries, "text").None? ==> r == Err(ValueError(Required + "."))
    ensures inp.Str? || inp.List? ==> r == Err(if PyIn(inp, "text") then TypeError else ValueError(Required + "."))
    ensures inp.Null? || inp.Bool? || inp.Int? ==> r == Err(TypeError)
    ensures inp.Obj? && Get(inp.entries, "text").Some? ==>
      r == Ok(Obj([("text", Str("Table created with input: " + PyStr(Get(inp.entries, "text").value)))]))
  {
    match RequireField(inp, "text", Required + ".")
    case Err(e) => Err(e)
    case Ok(t) => Ok(Obj([("text", Str("Table created with input: " + PyStr(t)))]))
  }

  /** `handler` of plugin_sqlite_create_db_v1: status and a message quoting the database name. */
  function SqliteCreateDb(inp: Value): (r: Result<Value, PyError>)
    ensures inp.Obj? && Get(inp.entries, "text").None? ==> r == Err(ValueError(Required + "."))
    ensures inp.Str? || inp.List? ==> r == Err(if PyIn(inp, "text") then TypeError else ValueError(Required + "."))
    ensures inp.Null? || inp.Bool? || inp.Int? ==> r == Err(TypeError)
    ensures inp.Obj? && Get(inp.entries, "text").Some? ==>
      var name := PyStr(Get(inp.entries, "text").value);
      && r.Ok? && r.value.Obj? && Keys(r.value.entries) == ["status", "text"]
      && r.value.entries[0].1 == Str("success")
      && r.value.entries[1].1 == Str("Database '" + name + "' created successfully.")
  {
    match RequireField(inp, "text", Required + ".")
    case Err(e) => Err(e)
    case Ok(t) => Ok(Obj([("status", Str("success")), ("text", Str("Database '" + PyStr(t) + "' created successfully."))]))
  }

  /** The sqlite stubs read nothing but `text`: two inputs that agree on it give the same result. */
  lemma SqliteOnlyText(a: Value, b: Value)
    requires a.Obj? && b.Obj? && Get(a.entries, "text") == Get(b.entries, "text")
    ensures SqliteQuery(a) == SqliteQuery(b) && SqliteInsertRow(a) == SqliteInsertRow(b)
    ensures SqliteCreateTable(a) == SqliteCreateTable(b) && SqliteCreateDb(a) == SqliteCreateDb(b)
    ensures Timeout(a) == Timeout(b)
  {
  }

  /** The inserted row's message ends with the text it echoes, when that text is a string. */
  lemma InsertRowMessage(inp: Value, s: string)
    requires inp.Obj? && Get(inp.entries, "text") == Some(Str(s))
    ensures var e := SqliteInsertRow(inp).value.entries;
            e[1].1 == Str(s) && e[2].1.Str? && EndsWith(e[2].1.s, s)
  {
    var msg := "Inserted row with text: " + s;
    assert msg[|msg| - |s|..] == s;
  }
}
