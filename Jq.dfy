/**
 * The `plugin.transform.jq` action: a tiny evaluator for paths such as `.a.b[0].c`.
 * The expression is cut at its first `|`, split at `.` into tokens, and each token is
 * consumed from the left: `[[` loses one bracket, `[<int>]` indexes a list, and a name
 * up to the next `[` looks a key up in a dict. An index that misses ends the whole
 * evaluation with None; a missing field or a malformed index raises ValueError.
 */
module Jq {
  import opened Wrappers
  import opened Text
  import opened Json
  import Refs

  /** Where the walk stands: at a value, or stopped early by an index that missed (`return None`). */
  datatype State = At(v: Value) | Missed

  /** The index token `[<text>]` at the start of `tok`: the text between the brackets and what follows `]`. */
  predicate IsIndexStart(tok: string) {
    |tok| > 0 && tok[0] == '[' && !(|tok| >= 2 && tok[..2] == "[[")
  }

  /** The inner `while tok:` loop of `_eval_expression`, consuming one dot-separated token; an error is the ValueError's message. */
  function TokenWalk(cur: Value, tok: string): Result<State, string>
    decreases |tok|
  {
    if tok == [] then Ok(At(cur))
    else if |tok| >= 2 && tok[..2] == "[[" then TokenWalk(cur, tok[1..])
    else if tok[0] == '[' then
      match Find(tok, "]")
      case None => Err("invalid index token")
      case Some(end) =>
        FindChar(tok, "]");
        match ParseInt(Strip(tok[1..end]))
        case None => Err("invalid array index")
        case Some(idx) =>
          if !cur.List? || idx < 0 || idx >= |cur.items| then Ok(Missed)
          else TokenWalk(cur.items[idx], tok[end + 1..])
    else
      var head := Head(tok);
      if !cur.Obj? || Get(cur.entries, head).None? then Err("field not found")
      else TokenWalk(Get(cur.entries, head).value, tok[|head|..])
  }

  /** The text of a token before its first `[`, which is never empty when the token does not start with `[`. */
  function Head(tok: string): (head: string)
    requires |tok| > 0 && tok[0] != '['
    ensures 0 < |head| <= |tok| && head == tok[..|head|] && '[' !in head
    ensures |head| < |tok| ==> tok[|head|] == '['
  {
    FindChar(tok, "[");
    match Find(tok, "[")
    case None => tok
    case Some(lb) => tok[..lb]
  }

  /** The rest of the outer `for tok in tokens:` loop once one token has been walked. */
  function Continue(r: Result<State, string>, rest: seq<string>): Result<State, string>
    decreases |rest|, 2
  {
    match r
    case Err(e) => Err(e)
    case Ok(Missed) => Ok(Missed)
    case Ok(At(v)) => PathWalk(v, rest)
  }

  /** The outer loop over the tokens. */
  function PathWalk(cur: Value, tokens: seq<string>): Result<State, string>
    decreases |tokens|, 1
  {
    if tokens == [] then Ok(At(cur)) else Continue(TokenWalk(cur, tokens[0]), tokens[1..])
  }

  /** `expr.split('|', 1)[0].strip()` when `expr` holds a `|`, else `expr`. */
  function Truncate(expr: string): (e: string)
    ensures !Contains(e, "|")
  {
    FindChar(expr, "|");
    match Find(expr, "|")
    case None =>
      NoCharNotFound(expr, "|");
      expr
    case Some(bar) =>
      var e := Strip(expr[..bar]);
      StripInside(expr[..bar], '|');
      NoCharNotFound(e, "|");
      e
  }

  /** The dot-separated tokens after the leading `.`; the expression `.` alone has none. */
  function Tokens(e: string): seq<string>
    requires StartsWith(e, ".")
  {
    if e == "." then [] else Split(e[1..], ".")
  }

  /** The evaluation of an already truncated expression. */
  function EvalPath(data: Value, e: string): Result<Value, string> {
    if !StartsWith(e, ".") then Err("expression must start with '.'")
    else
      Outcome(PathWalk(data, Tokens(e)))
  }

  /** What the function returns once the walk is over: None when an index missed, else the value reached. */
  function Outcome(w: Result<State, string>): Result<Value, string> {
    match w
    case Err(err) => Err(err)
    case Ok(Missed) => Ok(Null)
    case Ok(At(v)) => Ok(v)
  }

  /**
   * `_eval_expression(data, expr)`: Ok is the value returned (Null for None), Err the message
   * of the ValueError raised.
   */
  function Eval(data: Value, expr: Value): (r: Result<Value, string>)
    ensures !expr.Str? || expr.s == "" ==> r == Err("expression must be string")
    ensures expr.Str? && expr.s != "" && !StartsWith(Truncate(expr.s), ".") ==> r == Err("expression must start with '.'")
  {
    if !expr.Str? || expr.s == "" then Err("expression must be string")
    else EvalPath(data, Truncate(expr.s))
  }

  /** `_eval_expression`: the truncation and the outer `for` over the tokens. */
  method EvalExpression(data: Value, expr: Value) returns (r: Result<Value, string>)
    ensures r == Eval(data, expr)
  {
    if !expr.Str? || expr.s == [] {
      return Err("expression must be string");
    }
    var e := expr.s;
    var bar := Find(e, "|");
    if bar.Some? {
      e := Strip(e[..bar.value]);
    }
    assert e == Truncate(expr.s);
    if !StartsWith(e, ".") {
      return Err("expression must start with '.'");
    }
    var tokens := if e == "." then [] else Split(e[1..], ".");
    assert tokens == Tokens(e);
    var w := WalkTokens(data, tokens);
    return Outcome(w);
  }

  /** The outer `for tok in tokens:` loop; it stops at the first token that fails or misses. */
  method WalkTokens(data: Value, tokens: seq<string>) returns (w: Result<State, string>)
    ensures w == PathWalk(data, tokens)
  {
    var cur := data;
    for t := 0 to |tokens|
      invariant PathWalk(cur, tokens[t..]) == PathWalk(data, tokens)
    {
      assert tokens[t..][1..] == tokens[t + 1..];
      var step := WalkToken(cur, tokens[t]);
      if !(step.Ok? && step.value.At?) {
        return step;
      }
      cur := step.value.v;
    }
    assert tokens[|tokens|..] == [];
    return Ok(At(cur));
  }

  /** The inner `while tok:` loop over one token. */
  method WalkToken(cur0: Value, tok0: string) returns (r: Result<State, string>)
    ensures r == TokenWalk(cur0, tok0)
  {
    var cur, tok := cur0, tok0;
    while tok != []
      invariant TokenWalk(cur, tok) == TokenWalk(cur0, tok0)
      decreases |tok|
    {
      if |tok| >= 2 && tok[..2] == "[[" {
        tok := tok[1..];
      } else if tok[0] == '[' {
        var end := Find(tok, "]");
        if end.None? {
          return Err("invalid index token");
        }
        FindChar(tok, "]");
        var idx := ParseInt(Strip(tok[1..end.value]));
        if idx.None? {
          return Err("invalid array index");
        }
        if !cur.List? || idx.value < 0 || idx.value >= |cur.items| {
          return Ok(Missed);
        }
        cur := cur.items[idx.value];
        tok := tok[end.value + 1..];
      } else {
        // the head is never empty here: the token does not start with '['
        var head := Head(tok);
        if !cur.Obj? || Get(cur.entries, head).None? {
          return Err("field not found");
        }
        cur := Get(cur.entries, head).value;
        tok := tok[|head|..];
      }
    }
    return Ok(At(cur));
  }

  /** `resolved_input.get("data")`: None (Null) when the key is absent. */
  function DataOf(entries: seq<(string, Value)>): Value {
    if Get(entries, "data").Some? then Get(entries, "data").value else Null
  }

  /** `handler`: `{"result": _eval_expression(data, expression)}`, with a non-string expression refused first. */
  function Handler(inp: Value): (r: Result<Value, PyError>)
    ensures inp.Obj? && !(Get(inp.entries, "expression").Some? && Get(inp.entries, "expression").value.Str?) ==>
              r == Err(ValueError("'expression' must be string"))
    ensures r.Ok? <==> inp.Obj? && Get(inp.entries, "expression").Some? && Get(inp.entries, "expression").value.Str?
                       && Eval(DataOf(inp.entries), Get(inp.entries, "expression").value).Ok?
    ensures r.Ok? ==> r.value == Obj([("result", Eval(DataOf(inp.entries), Get(inp.entries, "expression").value).value)])
    ensures r.Err? ==> r.error.ValueError? || (r.error == AttributeError && !inp.Obj?)
  {
    if !inp.Obj? then Err(AttributeError)
    else
      var expr := Get(inp.entries, "expression");
      if expr.None? || !expr.value.Str? then Err(ValueError("'expression' must be string"))
      else
        match Eval(DataOf(inp.entries), expr.value)
        case Err(msg) => Err(ValueError(msg))
        case Ok(v) => Ok(Obj([("result", v)]))
  }

  // ---------------------------------------------------------------------
  // Properties
  // ---------------------------------------------------------------------

  /** The expression `.` returns the data unchanged. */
  lemma EvalIdentity(data: Value, expr: Value)
    requires expr == Str(".")
    ensures Eval(data, expr) == Ok(data)
  {
    NoCharNotFound(expr.s, "|");
  }

  /** Only the text before the first `|`, stripped, is evaluated. */
  lemma PipeTruncation(data: Value, e: string, rest: string, expr: string)
    requires '|' !in e && expr == e + ("|" + rest)
    ensures Eval(data, Str(expr)) == EvalPath(data, Strip(e))
  {
    FindAfter(e, "|" + rest, "|", expr);
    assert expr[..|e|] == e;
  }

  /** A `[[` at the start of a token counts as a single `[`. */
  lemma DoubleBracket(cur: Value, t: string, tok: string)
    requires tok == "[[" + t
    ensures TokenWalk(cur, tok) == TokenWalk(cur, "[" + t)
  {
    assert tok[..2] == "[[";
    assert tok[1..] == "[" + t;
  }

  /** An index `[d]` whose list is missing or too short stops the walk with None, whatever comes after. */
  lemma IndexMiss(cur: Value, d: string, tail: string, rest: seq<string>, i: int, tok: string)
    requires ']' !in d && '[' !in d && ParseInt(Strip(d)) == Some(i)
    requires !cur.List? || i < 0 || i >= |cur.items|
    requires tok == "[" + d + "]" + tail
    ensures TokenWalk(cur, tok) == Ok(Missed)
    ensures PathWalk(cur, [tok] + rest) == Ok(Missed)
  {
    IndexToken(d, tail, tok);
    MissedStops(cur, tok, rest);
  }

  /** Once a token misses, the tokens after it are not looked at. */
  lemma MissedStops(cur: Value, tok: string, rest: seq<string>)
    requires TokenWalk(cur, tok) == Ok(Missed)
    ensures PathWalk(cur, [tok] + rest) == Ok(Missed)
  {
    assert ([tok] + rest)[0] == tok;
  }

  /** An index `[d]` inside the list continues the walk at that item with what follows `]`. */
  lemma IndexHit(cur: Value, d: string, tail: string, i: int, tok: string)
    requires ']' !in d && '[' !in d && ParseInt(Strip(d)) == Some(i)
    requires cur.List? && 0 <= i < |cur.items|
    requires tok == "[" + d + "]" + tail
    ensures TokenWalk(cur, tok) == TokenWalk(cur.items[i], tail)
  {
    IndexToken(d, tail, tok);
  }

  /** `[` with no `]` anywhere after it raises "invalid index token". */
  lemma UnclosedIndex(cur: Value, tok: string)
    requires IsIndexStart(tok) && ']' !in tok
    ensures TokenWalk(cur, tok) == Err("invalid index token")
  {
    NoCharNotFound(tok, "]");
  }

  /** `[d]` whose text `int()` refuses raises "invalid array index". */
  lemma BadIndex(cur: Value, d: string, tail: string, tok: string)
    requires ']' !in d && '[' !in d && ParseInt(Strip(d)) == None
    requires tok == "[" + d + "]" + tail
    ensures TokenWalk(cur, tok) == Err("invalid array index")
  {
    IndexToken(d, tail, tok);
  }

  /** How an index token splits: it is not a `[[` token, and its first `]` closes `d`. */
  lemma IndexToken(d: string, tail: string, tok: string)
    requires ']' !in d && '[' !in d && tok == "[" + d + "]" + tail
    ensures IsIndexStart(tok)
    ensures Find(tok, "]") == Some(|d| + 1) && tok[1..|d| + 1] == d && tok[|d| + 2..] == tail
  {
    assert tok == ("[" + d) + ("]" + tail);
    FindAfter("[" + d, "]" + tail, "]", tok);
    assert |tok| >= 2 && tok[1] != '[' by {
      if d == [] {
        assert tok[1] == ']';
      } else {
        assert tok[1] == d[0] && d[0] in d;
      }
    }
  }

  /** A plain field name (no `[`) looks its key up in a dict. */
  lemma NameToken(cur: Value, name: string)
    requires |name| > 0 && '[' !in name
    ensures TokenWalk(cur, name) == if cur.Obj? && Get(cur.entries, name).Some? then Ok(At(Get(cur.entries, name).value))
                                   else Err("field not found")
  {
    assert name[0] in name;
    var head := Head(name);
    assert head == name;
    assert name[|head|..] == [];
  }

  /** Walking plain field names is the nested dict lookup. */
  lemma {:induction false} NamesWalk(cur: Value, names: seq<string>)
    requires forall k :: 0 <= k < |names| ==> |names[k]| > 0 && '[' !in names[k]
    ensures PathWalk(cur, names) == if Refs.Lookup(cur, names).Some? then Ok(At(Refs.Lookup(cur, names).value))
                                    else Err("field not found")
    decreases |names|
  {
    if names != [] {
      NameToken(cur, names[0]);
      if cur.Obj? && Get(cur.entries, names[0]).Some? {
        NamesWalk(Get(cur.entries, names[0]).value, names[1..]);
      }
    }
  }

  /** `.f1.f2...fn` over plain names is `data[f1][f2]...[fn]`, and a missing field raises. */
  lemma FieldPath(data: Value, names: seq<string>, expr: string)
    requires |names| >= 1
    requires forall k :: 0 <= k < |names| ==> |names[k]| > 0 && '[' !in names[k] && '.' !in names[k] && '|' !in names[k]
    requires expr == "." + Join(names, ".")
    ensures Eval(data, Str(expr)) == if Refs.Lookup(data, names).Some? then Ok(Refs.Lookup(data, names).value)
                                     else Err("field not found")
  {
    JoinNoChar(names, ".", '|');
    assert '|' !in expr;
    NoCharNotFound(expr, "|");
    assert expr[1..] == Join(names, ".");
    SplitJoin(names, ".");
    assert |Join(names, ".")| > 0 by {
      JoinHead(names, ".");
    }
    NamesWalk(data, names);
  }
}
