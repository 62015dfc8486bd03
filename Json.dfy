/**
 * The JSON-like values that flow between workflow nodes: the parsed IR's literals,
 * the resolved inputs handed to action handlers and the dicts they return.
 * A dict is kept as its list of (key, value) entries in insertion order, which is
 * how a Python dict iterates.
 */
module Json {
  import opened Wrappers
  import opened Text

  datatype Value =
    | Null
    | Bool(b: bool)
    | Int(i: int)
    | Str(s: string)
    | List(items: seq<Value>)
    | Obj(entries: seq<(string, Value)>)
  // An entry list may repeat a key, which a Python dict cannot, and `Get` returns the first
  // entry with the key. This does not matter here: the dict literals the handlers build have
  // distinct keys, dicts from the parsed workflow document have the parser's distinct keys,
  // and input resolution keeps the keys of the dict it maps, so a model value that stands
  // for a Python dict never repeats a key.

  /** The exceptions a handler can raise; the runner does not tell them apart. */
  datatype PyError =
    | ValueError(msg: string)
    | TypeError
    | AttributeError

  /** `d.get(key)` on a dict's entries: the value stored under `key`, if any. */
  function Get(entries: seq<(string, Value)>, key: string): (r: Option<Value>)
    ensures r.Some? <==> exists k :: 0 <= k < |entries| && entries[k].0 == key
    ensures r.Some? ==> exists k :: 0 <= k < |entries| && entries[k] == (key, r.value)
  {
    if entries == [] then None
    else if entries[0].0 == key then Some(entries[0].1)
    else
      var r := Get(entries[1..], key);
      assert forall k :: 1 <= k < |entries| ==> entries[k] == entries[1..][k - 1];
      r
  }

  /** The keys of a dict, in insertion order. */
  function Keys(entries: seq<(string, Value)>): seq<string> {
    seq(|entries|, k requires 0 <= k < |entries| => entries[k].0)
  }

  /** Python truthiness: the values `x or default` replaces by `default`. */
  predicate Falsy(v: Value) {
    v == Null || v == Bool(false) || v == Int(0) || v == Str("") || v == List([]) || v == Obj([])
  }

  /** `obj.get(key)` where `obj` is any value: only a dict has `.get`. */
  function GetField(obj: Value, key: string): Result<Option<Value>, PyError> {
    if obj.Obj? then Ok(Get(obj.entries, key)) else Err(AttributeError)
  }

  /**
   * `key in obj` for a string key: a key test on a dict, a substring test on a string and a
   * membership test on a list; on None, a bool or an int `in` raises TypeError instead.
   */
  predicate PyIn(obj: Value, key: string): (b: bool)
    requires obj.Obj? || obj.Str? || obj.List?
    ensures obj.Obj? ==> (b <==> exists k :: 0 <= k < |obj.entries| && obj.entries[k].0 == key)
    ensures obj.Str? ==> (b <==> exists j: nat :: OccursAt(obj.s, key, j))
    ensures obj.List? ==> (b <==> exists k :: 0 <= k < |obj.items| && obj.items[k] == Str(key))
  {
    match obj
    case Obj(entries) => Get(entries, key).Some?
    case Str(s) => Contains(s, key)
    case List(items) => Str(key) in items
  }

  /**
   * `if key not in obj: raise ValueError(msg)` followed by `obj[key]`: a dict yields the value,
   * while a string or a list that passes the test cannot be indexed by a string.
   */
  function RequireField(obj: Value, key: string, msg: string): (r: Result<Value, PyError>)
    ensures obj.Obj? && Get(obj.entries, key).None? ==> r == Err(ValueError(msg))
    ensures obj.Obj? && Get(obj.entries, key).Some? ==> r == Ok(Get(obj.entries, key).value)
    ensures obj.Str? || obj.List? ==> r == Err(if PyIn(obj, key) then TypeError else ValueError(msg))
    ensures obj.Null? || obj.Bool? || obj.Int? ==> r == Err(TypeError)
  {
    match obj
    case Obj(entries) =>
      (match Get(entries, key)
       case None => Err(ValueError(msg))
       case Some(v) => Ok(v))
    case Str(_) => if PyIn(obj, key) then Err(TypeError) else Err(ValueError(msg))
    case List(_) => if PyIn(obj, key) then Err(TypeError) else Err(ValueError(msg))
    case _ => Err(TypeError)
  }

  // ---------------------------------------------------------------------
  // str() and repr()
  // ---------------------------------------------------------------------

  function HexDigit(d: nat): char
    requires d < 16
  {
    if d < 10 then DigitChar(d) else ('a' as int + d - 10) as char
  }

  /** One character of a string literal as `repr` writes it, inside the quote `q`. */
  function EscapeChar(c: char, q: char): string {
    if c == q || c == '\\' then ['\\', c]
    else if c == '\t' then "\\t"
    else if c == '\n' then "\\n"
    else if c == '\r' then "\\r"
    else if c < ' ' || c == '\U{7f}' then "\\x" + [HexDigit(c as int / 16), HexDigit(c as int % 16)]
    else [c]
  }

  function EscapeAll(s: string, q: char): string {
    if s == [] then "" else EscapeChar(s[0], q) + EscapeAll(s[1..], q)
  }

  /** `repr(s)` of a string: single quotes unless the text has a single quote and no double quote. */
  function StrRepr(s: string): string {
    var q := if '\'' in s && '"' !in s then '"' else '\'';
    [q] + EscapeAll(s, q) + [q]
  }

  /** `repr(v)`, as `str` prints the items of a list or dict. */
  function Repr(v: Value): string
    decreases v, 0
  {
    match v
    case Null => "None"
    case Bool(b) => if b then "True" else "False"
    case Int(i) => IntToString(i)
    case Str(s) => StrRepr(s)
    case List(items) =>
      "[" + Join(seq(|items|, k requires 0 <= k < |items| => Repr(items[k])), ", ") + "]"
    case Obj(entries) =>
      "{" + Join(seq(|entries|, k requires 0 <= k < |entries| =>
                   assert entries[k].1 < entries[k];
                   StrRepr(entries[k].0) + ": " + Repr(entries[k].1)), ", ") + "}"
  }

  /** `str(v)`: a string is itself, anything else its `repr`. */
  function PyStr(v: Value): string {
    if v.Str? then v.s else Repr(v)
  }

  /** `str(v)` of anything but a string or None starts with a character that is not white space. */
  lemma PyStrStartsVisible(v: Value)
    requires !v.Str? && !v.Null?
    ensures |PyStr(v)| > 0 && !IsSpace(PyStr(v)[0])
  {
    match v
    case Bool(b) =>
    case Int(i) =>
      if i >= 0 {
        assert IsDigit(PyStr(v)[0]);
      }
    case List(items) =>
    case Obj(entries) =>
  }
}
