/**
 * Input resolution: `_resolve_ref` reads a `$.nodes.<id>.output.<field>...` path out of the
 * outputs of the nodes that already ran, and `_resolve_input` replaces every `{"$ref": path}`
 * object inside a node's input by what its path names.
 */
module Refs {
  import opened Wrappers
  import opened Text
  import opened Json

  /** The runner's two exception classes. */
  datatype Failure = Retryable(msg: string) | Permanent(msg: string)

  /** The output dict of every node that finished, by node id. */
  type Context = map<string, Value>

  // ---------------------------------------------------------------------
  // _resolve_ref
  // ---------------------------------------------------------------------

  /** A path is well formed when it has at least five dot-separated parts `$`, `nodes`, <id>, `output`, ... */
  predicate WellFormedPath(parts: seq<string>) {
    |parts| >= 5 && parts[0] == "$" && parts[1] == "nodes" && parts[3] == "output"
  }

  /** `val[key]` for a field token, failing unless `val` is a dict holding `key`. */
  function Field(val: Value, key: string, path: string): (r: Result<Value, Failure>)
    ensures r.Ok? <==> val.Obj? && Get(val.entries, key).Some?
    ensures r.Err? ==> r.error == Permanent("$ref field not found: " + path)
  {
    if val.Obj? && Get(val.entries, key).Some? then Ok(Get(val.entries, key).value)
    else Err(Permanent("$ref field not found: " + path))
  }

  /** A path token, split as `_resolve_ref` splits it. */
  datatype Token =
    | FieldToken(name: string)
      /** `head[index]`; `index` is None when `int()` refuses the text between the brackets. */
    | IndexToken(head: string, index: Option<int>)

  /** A token with a `[` that ends with `]` is an index token, cut at its first `[`. */
  function ParseToken(token: string): (t: Token)
    ensures t.IndexToken? <==> Contains(token, "[") && |token| > 0 && token[|token| - 1] == ']'
    ensures t.FieldToken? ==> t.name == token
  {
    if Contains(token, "[") && |token| > 0 && token[|token| - 1] == ']' then
      var i := Find(token, "[").value;
      assert token[i..i + 1] == "[" && token[i] == '[';
      IndexToken(token[..i], ParseInt(token[i + 1..|token| - 1]))
    else FieldToken(token)
  }

  /** A field name without `[`, followed by `[<i>]` written with `str(i)`, reads back as that name and index. */
  lemma ParseIndexToken(head: string, i: int, token: string)
    requires '[' !in head && token == head + "[" + IntToString(i) + "]"
    ensures ParseToken(token) == IndexToken(head, Some(i))
  {
    var digits := IntToString(i);
    var rest := "[" + digits + "]";
    assert token == head + rest;
    FindAfter(head, rest, "[", token);
    assert token[|token| - 1] == ']';
    assert token[..|head|] == head;
    assert token[|head| + 1..|token| - 1] == digits;
    ParseIntOfIntToString(i);
  }

  /** One parsed token applied to the current value. */
  function Apply(val: Value, token: Token, path: string): (r: Result<Value, Failure>)
    ensures r.Err? ==> r.error.Permanent?
  {
    match token
    case FieldToken(name) => Field(val, name, path)
    case IndexToken(head, index) =>
      var base := if head == [] then Ok(val) else Field(val, head, path);
      if base.Err? then base
      else if index.None? then Err(Permanent("$ref invalid index: " + path))
      else if base.value.List? && 0 <= index.value < |base.value.items| then Ok(base.value.items[index.value])
      else Err(Permanent("$ref index out of range: " + path))
  }

  /** One token of the path applied to the current value. */
  function Step(val: Value, token: string, path: string): Result<Value, Failure> {
    Apply(val, ParseToken(token), path)
  }

  /** The tokens applied in turn; the first failure ends the walk. */
  function Walk(val: Value, tokens: seq<string>, path: string): Result<Value, Failure>
    decreases tokens
  {
    if tokens == [] then Ok(val)
    else
      var s := Step(val, tokens[0], path);
      if s.Err? then s else Walk(s.value, tokens[1..], path)
  }

  /** What `_resolve_ref(path, context)` returns or raises. */
  function Resolve(path: string, ctx: Context): Result<Value, Failure> {
    var parts := Split(path, ".");
    if !WellFormedPath(parts) then Err(Permanent("Unsupported $ref path: " + path))
    else if parts[2] !in ctx then Err(Retryable("$ref to unknown node: " + parts[2]))
    else Walk(ctx[parts[2]], parts[4..], path)
  }

  /** `_resolve_ref`, walking the tokens after `output` one at a time. */
  method ResolveRef(path: string, ctx: Context) returns (r: Result<Value, Failure>)
    ensures r == Resolve(path, ctx)
  {
    var parts := Split(path, ".");
    if |parts| < 5 || parts[0] != "$" || parts[1] != "nodes" || parts[3] != "output" {
      return Err(Permanent("Unsupported $ref path: " + path));
    }
    var nid := parts[2];
    if nid !in ctx {
      return Err(Retryable("$ref to unknown node: " + nid));
    }
    var val := ctx[nid];
    var tokens := parts[4..];
    for t := 0 to |tokens|
      invariant Walk(val, tokens[t..], path) == Resolve(path, ctx)
    {
      assert tokens[t..][0] == tokens[t] && tokens[t..][1..] == tokens[t + 1..];
      var next := StepToken(val, tokens[t], path);
      if next.Err? {
        return next;
      }
      val := next.value;
    }
    assert tokens[|tokens|..] == [];
    return Ok(val);
  }

  /** The body of the token loop: a field lookup, or an optional field lookup and then a list index. */
  method StepToken(val: Value, tokenText: string, path: string) returns (r: Result<Value, Failure>)
    ensures r == Step(val, tokenText, path)
  {
    var token := ParseToken(tokenText);
    match token {
      case IndexToken(head, idx) =>
        r := IndexStep(val, head, idx, path);
      case FieldToken(name) =>
        if !(val.Obj? && Get(val.entries, name).Some?) {
          return Err(Permanent("$ref field not found: " + path));
        }
        return Ok(Get(val.entries, name).value);
    }
  }

  /** An index token: the field before `[` when there is one, then the list index. */
  method IndexStep(val0: Value, head: string, idx: Option<int>, path: string) returns (r: Result<Value, Failure>)
    ensures r == Apply(val0, IndexToken(head, idx), path)
  {
    var val := val0;
    if head != [] {
      if !(val.Obj? && Get(val.entries, head).Some?) {
        return Err(Permanent("$ref field not found: " + path));
      }
      val := Get(val.entries, head).value;
    }
    if idx.None? {
      return Err(Permanent("$ref invalid index: " + path));
    }
    if !(val.List? && 0 <= idx.value < |val.items|) {
      return Err(Permanent("$ref index out of range: " + path));
    }
    return Ok(val.items[idx.value]);
  }

  /** Walking the tokens fails only permanently. */
  lemma {:induction false} WalkPermanent(val: Value, tokens: seq<string>, path: string)
    decreases tokens
    ensures Walk(val, tokens, path).Err? ==> Walk(val, tokens, path).error.Permanent?
  {
    if tokens != [] && Step(val, tokens[0], path).Ok? {
      WalkPermanent(Step(val, tokens[0], path).value, tokens[1..], path);
    }
  }

  /** The only retryable failure is a well-formed path naming a node that has not produced output. */
  lemma RetryableOnlyForUnknownNode(path: string, ctx: Context)
    ensures Resolve(path, ctx).Err? && Resolve(path, ctx).error.Retryable?
        <==> WellFormedPath(Split(path, ".")) && Split(path, ".")[2] !in ctx
  {
    var parts := Split(path, ".");
    if WellFormedPath(parts) && parts[2] in ctx {
      WalkPermanent(ctx[parts[2]], parts[4..], path);
    }
  }

  /** The nested dict lookups `v[f1][f2]...`, None as soon as one is missing. */
  function Lookup(v: Value, fields: seq<string>): Option<Value>
    decreases fields
  {
    if fields == [] then Some(v)
    else if v.Obj? && Get(v.entries, fields[0]).Some? then Lookup(Get(v.entries, fields[0]).value, fields[1..])
    else None
  }

  /** The path `$.nodes.<nid>.output.<f1>.<f2>...`. */
  function RefPath(nid: string, fields: seq<string>): string {
    Join(["$", "nodes", nid, "output"] + fields, ".")
  }

  /** Field tokens without `[` walk the dicts exactly as `Lookup` does. */
  lemma {:induction false} WalkFields(v: Value, fields: seq<string>, path: string)
    requires forall k :: 0 <= k < |fields| ==> '[' !in fields[k]
    ensures Walk(v, fields, path) == if Lookup(v, fields).Some? then Ok(Lookup(v, fields).value)
                                     else Err(Permanent("$ref field not found: " + path))
    decreases fields
  {
    if fields != [] {
      NoCharNotFound(fields[0], "[");
      if v.Obj? && Get(v.entries, fields[0]).Some? {
        WalkFields(Get(v.entries, fields[0]).value, fields[1..], path);
      }
    }
  }

  /** Splitting such a path at `.` gives back its parts. */
  lemma SplitRefPath(nid: string, fields: seq<string>)
    requires '.' !in nid
    requires forall k :: 0 <= k < |fields| ==> '.' !in fields[k]
    ensures Split(RefPath(nid, fields), ".") == ["$", "nodes", nid, "output"] + fields
  {
    var parts := ["$", "nodes", nid, "output"] + fields;
    forall k | 0 <= k < |parts| ensures '.' !in parts[k] {
      if k >= 4 {
        assert parts[k] == fields[k - 4];
      } else if k == 0 {
        assert parts[k] == "$";
      } else if k == 1 {
        assert parts[k] == "nodes";
      } else if k == 3 {
        assert parts[k] == "output";
      }
    }
    SplitJoin(parts, ".");
  }

  /** The parts of such a path make a well-formed path naming `nid`, with `fields` after `output`. */
  lemma RefParts(nid: string, fields: seq<string>, parts: seq<string>)
    requires |fields| >= 1 && parts == ["$", "nodes", nid, "output"] + fields
    ensures WellFormedPath(parts) && parts[2] == nid && parts[4..] == fields
  {
    assert parts[0] == "$" && parts[1] == "nodes" && parts[3] == "output";
  }

  /**
   * A path built from a node id and field names (none holding `.` or `[`) resolves to the
   * nested lookup of those fields in that node's output; a node with no output yet is a
   * retryable failure, a missing field a permanent one.
   */
  lemma ResolveRefPath(nid: string, fields: seq<string>, path: string, ctx: Context)
    requires |fields| >= 1 && '.' !in nid
    requires forall k :: 0 <= k < |fields| ==> '.' !in fields[k] && '[' !in fields[k]
    requires path == RefPath(nid, fields)
    ensures nid !in ctx ==> Resolve(path, ctx) == Err(Retryable("$ref to unknown node: " + nid))
    ensures nid in ctx && Lookup(ctx[nid], fields).Some? ==> Resolve(path, ctx) == Ok(Lookup(ctx[nid], fields).value)
    ensures nid in ctx && Lookup(ctx[nid], fields).None? ==> Resolve(path, ctx) == Err(Permanent("$ref field not found: " + path))
  {
    SplitRefPath(nid, fields);
    RefParts(nid, fields, Split(path, "."));
    if nid in ctx {
      WalkFields(ctx[nid], fields, path);
    }
  }

  // ---------------------------------------------------------------------
  // _resolve_input
  // ---------------------------------------------------------------------

  /** A dict whose only key is `$ref`, holding a string. */
  predicate IsRef(entries: seq<(string, Value)>) {
    && |entries| > 0
    && (forall k :: 0 <= k < |entries| ==> entries[k].0 == "$ref")
    && Get(entries, "$ref").value.Str?
  }

  /** A string the verify and prod modes refuse: it holds both `{{` and `}}`. */
  predicate IsTemplate(s: string) {
    Contains(s, "{{") && Contains(s, "}}")
  }

  predicate TemplatesBanned(mode: string) {
    mode == "verify" || mode == "prod"
  }

  /** The results in turn; the first failure is the result of the whole. */
  function Collect(rs: seq<Result<Value, Failure>>): (r: Result<seq<Value>, Failure>)
    ensures r.Ok? <==> forall k :: 0 <= k < |rs| ==> rs[k].Ok?
    ensures r.Ok? ==> |r.value| == |rs| && forall k :: 0 <= k < |rs| ==> rs[k] == Ok(r.value[k])
    ensures r.Err? ==> exists k :: 0 <= k < |rs| && rs[k] == Err(r.error) && forall j :: 0 <= j < k ==> rs[j].Ok?
  {
    if rs == [] then Ok([])
    else if rs[0].Err? then Err(rs[0].error)
    else
      var rest := Collect(rs[1..]);
      assert forall k :: 1 <= k < |rs| ==> rs[k] == rs[1..][k - 1];
      if rest.Err? then Err(rest.error) else Ok([rs[0].value] + rest.value)
  }

  /**
   * `_resolve_input(obj, context)` where `mode` is `AUTOMATOR_MODE` (default `explore`):
   * a `$ref` dict becomes what its path names, dicts and lists are resolved item by item,
   * a template string fails in verify and prod, anything else is kept.
   */
  function ResolveInput(obj: Value, ctx: Context, mode: string): (r: Result<Value, Failure>)
    ensures obj.Obj? && !IsRef(obj.entries) && r.Ok? ==> r.value.Obj? && Keys(r.value.entries) == Keys(obj.entries)
    ensures obj.List? && r.Ok? ==> r.value.List? && |r.value.items| == |obj.items|
    ensures obj.Str? && TemplatesBanned(mode) && IsTemplate(obj.s) ==> r.Err? && r.error.Permanent?
    ensures !obj.Obj? && !obj.List? && r.Ok? ==> r.value == obj
    decreases obj
  {
    match obj
    case Obj(entries) =>
      if IsRef(entries) then Resolve(Get(entries, "$ref").value.s, ctx)
      else
        var rs := Collect(seq(|entries|, k requires 0 <= k < |entries| =>
                      assert entries[k].1 < entries[k];
                      ResolveInput(entries[k].1, ctx, mode)));
        if rs.Err? then Err(rs.error)
        else Ok(Obj(seq(|entries|, k requires 0 <= k < |entries| => (entries[k].0, rs.value[k]))))
    case List(items) =>
      var rs := Collect(seq(|items|, k requires 0 <= k < |items| => ResolveInput(items[k], ctx, mode)));
      if rs.Err? then Err(rs.error) else Ok(List(rs.value))
    case Str(s) =>
      if TemplatesBanned(mode) && IsTemplate(s) then
        Err(Permanent("template literals not allowed in verify/prod; use $ref"))
      else Ok(obj)
    case _ => Ok(obj)
  }

  /**
   * What `_resolve_input` does with a dict: a `$ref` dict becomes what its path resolves to;
   * any other dict succeeds exactly when each value resolves, keeps its keys in order with
   * each value replaced by its resolution, and otherwise fails with the error of the first
   * value that fails.
   */
  lemma ResolveDictChildren(obj: Value, ctx: Context, mode: string)
    requires obj.Obj?
    ensures IsRef(obj.entries) ==> ResolveInput(obj, ctx, mode) == Resolve(Get(obj.entries, "$ref").value.s, ctx)
    ensures !IsRef(obj.entries) ==>
      var es, r := obj.entries, ResolveInput(obj, ctx, mode);
      && (r.Ok? <==> forall k :: 0 <= k < |es| ==> ResolveInput(es[k].1, ctx, mode).Ok?)
      && (r.Ok? ==> |r.value.entries| == |es|
                    && forall k :: 0 <= k < |es| ==> r.value.entries[k] == (es[k].0, ResolveInput(es[k].1, ctx, mode).value))
      && (r.Err? ==> exists k :: 0 <= k < |es| && ResolveInput(es[k].1, ctx, mode) == Err(r.error)
                                && forall j :: 0 <= j < k ==> ResolveInput(es[j].1, ctx, mode).Ok?)
  {
    var es := obj.entries;
    if !IsRef(es) {
      var rs := seq(|es|, k requires 0 <= k < |es| => ResolveInput(es[k].1, ctx, mode));
      assert forall k :: 0 <= k < |es| ==> rs[k] == ResolveInput(es[k].1, ctx, mode);
      assert ResolveInput(obj, ctx, mode) == if Collect(rs).Err? then Err(Collect(rs).error)
        else Ok(Obj(seq(|es|, k requires 0 <= k < |es| => (es[k].0, Collect(rs).value[k]))));
    }
  }

  /**
   * What `_resolve_input` does with a list: it succeeds exactly when each item resolves,
   * keeps the order with each item replaced by its resolution, and otherwise fails with the
   * error of the first item that fails.
   */
  lemma ResolveListChildren(obj: Value, ctx: Context, mode: string)
    requires obj.List?
    ensures var xs, r := obj.items, ResolveInput(obj, ctx, mode);
      && (r.Ok? <==> forall k :: 0 <= k < |xs| ==> ResolveInput(xs[k], ctx, mode).Ok?)
      && (r.Ok? ==> |r.value.items| == |xs| && forall k :: 0 <= k < |xs| ==> r.value.items[k] == ResolveInput(xs[k], ctx, mode).value)
      && (r.Err? ==> exists k :: 0 <= k < |xs| && ResolveInput(xs[k], ctx, mode) == Err(r.error)
                                && forall j :: 0 <= j < k ==> ResolveInput(xs[j], ctx, mode).Ok?)
  {
    var xs := obj.items;
    var rs := seq(|xs|, k requires 0 <= k < |xs| => ResolveInput(xs[k], ctx, mode));
    assert forall k :: 0 <= k < |xs| ==> rs[k] == ResolveInput(xs[k], ctx, mode);
    assert ResolveInput(obj, ctx, mode) == if Collect(rs).Err? then Err(Collect(rs).error) else Ok(List(Collect(rs).value));
  }

  /** No `$ref` dict anywhere inside, and, where templates are banned, no template string. */
  predicate Literal(v: Value, mode: string)
    decreases v
  {
    match v
    case Obj(entries) =>
      !IsRef(entries) && forall k :: 0 <= k < |entries| ==> (assert entries[k].1 < entries[k]; Literal(entries[k].1, mode))
    case List(items) => forall k :: 0 <= k < |items| ==> Literal(items[k], mode)
    case Str(s) => !(TemplatesBanned(mode) && IsTemplate(s))
    case _ => true
  }

  /** Resolution keeps a literal input exactly as written. */
  lemma {:induction false} ResolveLiteral(v: Value, ctx: Context, mode: string)
    requires Literal(v, mode)
    ensures ResolveInput(v, ctx, mode) == Ok(v)
    decreases v
  {
    match v
    case Obj(entries) =>
      forall k | 0 <= k < |entries| ensures ResolveInput(entries[k].1, ctx, mode) == Ok(entries[k].1) {
        assert entries[k].1 < entries[k];
        ResolveLiteral(entries[k].1, ctx, mode);
      }
      var r := ResolveInput(v, ctx, mode);
      assert r.value.entries == entries;
    case List(items) =>
      forall k | 0 <= k < |items| ensures ResolveInput(items[k], ctx, mode) == Ok(items[k]) {
        ResolveLiteral(items[k], ctx, mode);
      }
      var r := ResolveInput(v, ctx, mode);
      assert r.value.items == items;
    case _ =>
  }
}
