/**
 * The two markup actions: `plugin.html.extract_xml`, a character scan that keeps the
 * text inside `<...>`, and `plugin.transform.strip_html`, which deletes `<...>` tags,
 * turns every run of white space into one space and strips the ends.
 */
module Markup {
  import opened Wrappers
  import opened Text
  import opened Json
  import opened Seqs

  // ---------------------------------------------------------------------
  // plugin.html.extract_xml
  // ---------------------------------------------------------------------

  /** The scan's `in_tag` flag after reading `p`: the last of `<` and `>` in `p` is a `<`. */
  predicate InTag(p: string)
    decreases |p|
  {
    if p == [] then false
    else if p[|p| - 1] == '<' then true
    else if p[|p| - 1] == '>' then false
    else InTag(p[..|p| - 1])
  }

  /** Whether the scan keeps `c` after reading `p`: brackets always, other characters inside a tag. */
  predicate Kept(p: string, c: char) {
    c == '<' || c == '>' || InTag(p)
  }

  /** The characters the scan keeps, in order. */
  function Extract(s: string): (r: string)
    ensures |r| <= |s|
    decreases |s|
  {
    if s == [] then []
    else
      var init := s[..|s| - 1];
      Extract(init) + (if Kept(init, s[|s| - 1]) then [s[|s| - 1]] else [])
  }

  /** The loop of `handler` in plugin_html_extract_xml_v1, with its `in_tag` flag. */
  method ExtractXml(text: string) returns (extracted: string)
    ensures extracted == Extract(text)
  {
    extracted := "";
    var inTag := false;
    for i := 0 to |text|
      invariant inTag == InTag(text[..i])
      invariant extracted == Extract(text[..i])
    {
      var c := text[i];
      assert text[..i + 1][..i] == text[..i];
      if c == '<' {
        inTag := true;
        extracted := extracted + [c];
      } else if c == '>' {
        inTag := false;
        extracted := extracted + [c];
      } else if inTag {
        extracted := extracted + [c];
      }
    }
    assert text[..|text|] == text;
  }

  /** `handler`: `{'text': <kept characters>}`; a missing `text` raises ValueError. */
  function ExtractXmlHandler(inp: Value): (r: Result<Value, PyError>)
    ensures inp.Obj? && Get(inp.entries, "text").None? ==> r == Err(ValueError("Input must contain 'text' field"))
    ensures inp.Str? || inp.List? ==> r == Err(if PyIn(inp, "text") then TypeError else ValueError("Input must contain 'text' field"))
    ensures inp.Null? || inp.Bool? || inp.Int? ==> r == Err(TypeError)
    ensures inp.Obj? && Get(inp.entries, "text").Some? && Get(inp.entries, "text").value.Str? ==>
              r == Ok(Obj([("text", Str(Extract(Get(inp.entries, "text").value.s)))]))
  {
    match RequireField(inp, "text", "Input must contain 'text' field")
    case Err(e) => Err(e)
    case Ok(text) =>
      if text.Str? then Ok(Obj([("text", Str(Extract(text.s)))])) else Err(TypeError)
  }

  /** The characters of `s` whose flag in `keep` is set, in order. */
  function Select(s: string, keep: seq<bool>): string
    requires |keep| == |s|
    decreases |s|
  {
    if s == [] then []
    else Select(s[..|s| - 1], keep[..|s| - 1]) + (if keep[|s| - 1] then [s[|s| - 1]] else [])
  }

  /** For each position, whether the scan keeps its character. */
  function KeepMask(s: string): (m: seq<bool>)
    ensures |m| == |s|
  {
    seq(|s|, i requires 0 <= i < |s| => Kept(s[..i], s[i]))
  }

  /**
   * The output is the input with exactly these characters kept, order preserved: each `<`
   * and `>`, and each other character whose nearest bracket before it is `<`.
   */
  lemma {:induction false} ExtractSelects(s: string)
    ensures Extract(s) == Select(s, KeepMask(s))
    decreases |s|
  {
    if s != [] {
      var init := s[..|s| - 1];
      ExtractSelects(init);
      assert KeepMask(s)[..|s| - 1] == KeepMask(init) by {
        forall i | 0 <= i < |init| ensures KeepMask(s)[i] == KeepMask(init)[i] {
          assert s[..i] == init[..i];
        }
      }
    }
  }

  /** Every `<` and every `>` of the input is in the output. */
  lemma {:induction false} ExtractKeepsBrackets(s: string, c: char)
    requires c == '<' || c == '>'
    ensures multiset(Extract(s))[c] == multiset(s)[c]
    decreases |s|
  {
    if s != [] {
      var init := s[..|s| - 1];
      ExtractKeepsBrackets(init, c);
      assert s == init + [s[|s| - 1]];
    }
  }

  /** Without any `<`, only the `>` characters are left. */
  lemma {:induction false} ExtractWithoutOpen(s: string)
    requires '<' !in s
    ensures !InTag(s)
    ensures Extract(s) == Where(s, c => c == '>')
    decreases |s|
  {
    if s != [] {
      var init := s[..|s| - 1];
      assert forall c :: c in init ==> c in s;
      ExtractWithoutOpen(init);
    }
  }

  /** The output leaves the scan's flag as the input does. */
  lemma {:induction false} InTagExtract(p: string)
    ensures InTag(Extract(p)) == InTag(p)
    decreases |p|
  {
    if p != [] {
      var init := p[..|p| - 1];
      var c := p[|p| - 1];
      InTagExtract(init);
      if Kept(init, c) {
        var e := Extract(init) + [c];
        assert Extract(p) == e;
        assert e[..|e| - 1] == Extract(init);
        assert InTag(e) == (if c == '<' then true else if c == '>' then false else InTag(Extract(init)));
      } else {
        assert Extract(p) == Extract(init);
      }
    }
  }

  /** Extracting again changes nothing. */
  lemma {:induction false} ExtractIdempotent(s: string)
    ensures Extract(Extract(s)) == Extract(s)
    decreases |s|
  {
    if s != [] {
      var init := s[..|s| - 1];
      var c := s[|s| - 1];
      ExtractIdempotent(init);
      InTagExtract(init);
      if Kept(init, c) {
        var e := Extract(init) + [c];
        assert Extract(s) == e;
        assert e[..|e| - 1] == Extract(init);
        assert Kept(Extract(init), c);
        assert Extract(e) == Extract(Extract(init)) + [c];
      } else {
        assert Extract(s) == Extract(init);
      }
    }
  }

  // ---------------------------------------------------------------------
  // plugin.transform.strip_html
  // ---------------------------------------------------------------------

  /**
   * `re.sub(r"<[^>]*>", "", s)`: from each `<` to the first `>` after it is deleted; a `<`
   * with no `>` after it stays, and so does everything after it.
   */
  function RemoveTags(s: string): string
    decreases |s|
  {
    if s == [] then []
    else if s[0] == '<' then
      match Find(s, ">")
      case None => s
      case Some(j) =>
        FindChar(s, ">");
        RemoveTags(s[j + 1..])
    else [s[0]] + RemoveTags(s[1..])
  }

  /** `re.sub(r"\s+", " ", s)`: each run of white space becomes one space. */
  function Collapse(s: string): string
    decreases |s|
  {
    if s == [] then []
    else if IsSpace(s[0]) then " " + Collapse(TrimLeft(s[1..], IsSpace))
    else [s[0]] + Collapse(s[1..])
  }

  /** The text `_handler` returns. */
  function StripHtml(src: string): string {
    Strip(Collapse(RemoveTags(src)))
  }

  /** `_handler`: the source is `text` when it is a string, else `html` when that is a string. */
  function StripHtmlHandler(inp: Value): (r: Result<Value, PyError>)
    ensures inp.Obj? && Get(inp.entries, "text").Some? && Get(inp.entries, "text").value.Str? ==>
              r == Ok(Obj([("text", Str(StripHtml(Get(inp.entries, "text").value.s)))]))
    ensures inp.Obj? && !(Get(inp.entries, "text").Some? && Get(inp.entries, "text").value.Str?)
                     && Get(inp.entries, "html").Some? && Get(inp.entries, "html").value.Str? ==>
              r == Ok(Obj([("text", Str(StripHtml(Get(inp.entries, "html").value.s)))]))
    ensures r.Err? <==> !inp.Obj? || (!(Get(inp.entries, "text").Some? && Get(inp.entries, "text").value.Str?)
                                     && !(Get(inp.entries, "html").Some? && Get(inp.entries, "html").value.Str?))
  {
    if !inp.Obj? then Err(AttributeError)
    else
      var text := Get(inp.entries, "text");
      var html := Get(inp.entries, "html");
      if text.Some? && text.value.Str? then Ok(Obj([("text", Str(StripHtml(text.value.s)))]))
      else if html.Some? && html.value.Str? then Ok(Obj([("text", Str(StripHtml(html.value.s)))]))
      else Err(ValueError("Expected 'text' or 'html' string input"))
  }

  /** No `<` is followed, anywhere later, by a `>`. */
  predicate NoTag(t: string) {
    forall i, j :: 0 <= i < j < |t| && t[i] == '<' ==> t[j] != '>'
  }

  /** The only white space is single spaces. */
  predicate Spaced(t: string) {
    && (forall i :: 0 <= i < |t| && IsSpace(t[i]) ==> t[i] == ' ')
    && (forall i :: 0 <= i < |t| - 1 ==> !(IsSpace(t[i]) && IsSpace(t[i + 1])))
  }

  /** No white space at either end. */
  predicate Trimmed(t: string) {
    t == [] || (!IsSpace(t[0]) && !IsSpace(t[|t| - 1]))
  }

  /** Putting a character in front keeps NoTag unless it is a `<` before a `>`. */
  lemma ConsNoTag(h: char, t: string)
    requires NoTag(t) && (h == '<' ==> '>' !in t)
    ensures NoTag([h] + t)
  {
    var r := [h] + t;
    forall i, j | 0 <= i < j < |r| && r[i] == '<' ensures r[j] != '>' {
      assert r[j] == t[j - 1];
      if i > 0 {
        assert r[i] == t[i - 1];
      }
    }
  }

  /** Putting a character in front keeps Spaced unless it is white space other than a space, or touches white space. */
  lemma ConsSpaced(h: char, t: string)
    requires Spaced(t) && (IsSpace(h) ==> h == ' ' && (t == [] || !IsSpace(t[0])))
    ensures Spaced([h] + t)
  {
    var r := [h] + t;
    forall i | 0 <= i < |r| - 1 ensures !(IsSpace(r[i]) && IsSpace(r[i + 1])) {
      assert r[i + 1] == t[i];
      if i > 0 {
        assert r[i] == t[i - 1];
      }
    }
    forall i | 0 <= i < |r| && IsSpace(r[i]) ensures r[i] == ' ' {
      if i > 0 {
        assert r[i] == t[i - 1];
      }
    }
  }

  /** A suffix keeps both shapes. */
  lemma SuffixShapes(t: string, k: nat)
    requires k <= |t|
    ensures NoTag(t) ==> NoTag(t[k..])
    ensures Spaced(t) ==> Spaced(t[k..])
  {
    SliceShapes(t, k, |t|);
  }

  lemma {:induction false} RemoveTagsNoTag(s: string)
    ensures NoTag(RemoveTags(s))
    decreases |s|
  {
    if s != [] {
      if s[0] == '<' {
        FindChar(s, ">");
        var f := Find(s, ">");
        if f.Some? {
          RemoveTagsNoTag(s[f.value + 1..]);
        } else {
          assert '>' !in s;
        }
      } else {
        RemoveTagsNoTag(s[1..]);
        ConsNoTag(s[0], RemoveTags(s[1..]));
      }
    }
  }

  /** Collapsing adds no character other than a space. */
  lemma {:induction false} CollapseNoNew(s: string, c: char)
    requires c != ' ' && c !in s
    ensures c !in Collapse(s)
    decreases |s|
  {
    if s != [] {
      if IsSpace(s[0]) {
        var t := TrimLeft(s[1..], IsSpace);
        assert t == s[1..][|s[1..]| - |t|..];
        assert c !in t;
        CollapseNoNew(t, c);
      } else {
        CollapseNoNew(s[1..], c);
      }
    }
  }

  /** What Collapse continues with after the first character: a suffix of the input. */
  lemma CollapseRest(s: string) returns (k: nat)
    requires s != []
    ensures 1 <= k <= |s|
    ensures forall i :: 1 <= i < k ==> IsSpace(s[i])
    ensures IsSpace(s[0]) ==> Collapse(s) == " " + Collapse(s[k..]) && (k == |s| || !IsSpace(s[k]))
    ensures !IsSpace(s[0]) ==> Collapse(s) == [s[0]] + Collapse(s[k..]) && k == 1
  {
    if IsSpace(s[0]) {
      var t := TrimLeft(s[1..], IsSpace);
      k := |s| - |t|;
      assert t == s[1..][|s[1..]| - |t|..];
      assert t == s[k..];
    } else {
      k := 1;
    }
  }

  lemma {:induction false} CollapseNoTag(s: string)
    requires NoTag(s)
    ensures NoTag(Collapse(s))
    decreases |s|
  {
    if s != [] {
      var k := CollapseRest(s);
      SuffixShapes(s, k);
      CollapseNoTag(s[k..]);
      if !IsSpace(s[0]) && s[0] == '<' {
        assert '>' !in s[1..] by {
          forall j | 0 <= j < |s| - 1 ensures s[1..][j] != '>' {
            assert s[1..][j] == s[j + 1];
          }
        }
        CollapseNoNew(s[1..], '>');
      }
      ConsNoTag(if IsSpace(s[0]) then ' ' else s[0], Collapse(s[k..]));
    }
  }

  lemma {:induction false} CollapseSpaced(s: string)
    ensures Spaced(Collapse(s))
    ensures s != [] && !IsSpace(s[0]) ==> Collapse(s) != [] && Collapse(s)[0] == s[0]
    decreases |s|
  {
    if s != [] {
      var k := CollapseRest(s);
      CollapseSpaced(s[k..]);
      ConsSpaced(if IsSpace(s[0]) then ' ' else s[0], Collapse(s[k..]));
    }
  }

  /** A slice keeps both shapes. */
  lemma SliceShapes(t: string, a: nat, b: nat)
    requires a <= b <= |t|
    ensures NoTag(t) ==> NoTag(t[a..b])
    ensures Spaced(t) ==> Spaced(t[a..b])
  {
    var u := t[a..b];
    if NoTag(t) {
      forall i, j | 0 <= i < j < |u| && u[i] == '<' ensures u[j] != '>' {
        assert u[i] == t[a + i] && u[j] == t[a + j];
      }
    }
    if Spaced(t) {
      forall i | 0 <= i < |u| - 1 ensures !(IsSpace(u[i]) && IsSpace(u[i + 1])) {
        assert u[i] == t[a + i] && u[i + 1] == t[a + i + 1];
      }
      forall i | 0 <= i < |u| && IsSpace(u[i]) ensures u[i] == ' ' {
        assert u[i] == t[a + i];
      }
    }
  }

  /**
   * The result has no white space at its ends, no white space but single spaces, and no `<`
   * followed later by `>`.
   */
  lemma StripHtmlShape(src: string)
    ensures Trimmed(StripHtml(src)) && Spaced(StripHtml(src)) && NoTag(StripHtml(src))
  {
    var t := Collapse(RemoveTags(src));
    RemoveTagsNoTag(src);
    CollapseNoTag(RemoveTags(src));
    CollapseSpaced(RemoveTags(src));
    var a, b := StripWithSlice(t, IsSpace);
    SliceShapes(t, a, b);
    StripWithEdges(t, IsSpace);
  }

  lemma {:induction false} RemoveTagsOfNoTag(t: string)
    requires NoTag(t)
    ensures RemoveTags(t) == t
    decreases |t|
  {
    if t != [] {
      if t[0] == '<' {
        assert '>' !in t by {
          forall j | 0 <= j < |t| ensures t[j] != '>' {
            if j == 0 {
              assert t[j] == '<';
            }
          }
        }
        NoCharNotFound(t, ">");
      } else {
        SuffixShapes(t, 1);
        RemoveTagsOfNoTag(t[1..]);
      }
    }
  }

  lemma {:induction false} CollapseOfSpaced(t: string)
    requires Spaced(t)
    ensures Collapse(t) == t
    decreases |t|
  {
    if t != [] {
      var k := CollapseRest(t);
      assert k == 1 by {
        if |t| > 1 {
          assert !(IsSpace(t[0]) && IsSpace(t[1]));
        }
      }
      SuffixShapes(t, 1);
      CollapseOfSpaced(t[1..]);
      assert t == [t[0]] + t[1..];
    }
  }

  /** Stripping the tags of the result again returns it unchanged. */
  lemma StripHtmlIdempotent(src: string)
    ensures StripHtml(StripHtml(src)) == StripHtml(src)
  {
    var r := StripHtml(src);
    StripHtmlShape(src);
    RemoveTagsOfNoTag(r);
    CollapseOfSpaced(r);
    StripWithNoEdges(r, IsSpace);
  }
}
