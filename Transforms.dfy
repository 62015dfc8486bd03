/**
 * The two case-and-separator actions: `plugin.transform.slugify`
 * (`re.sub(r"[^a-zA-Z0-9]+", sep, text).strip(sep).lower()`) and
 * `plugin.transform.to_title_case` (`text.title()`), with letters and case taken as ASCII.
 */
module Transforms {
  import opened Wrappers
  import opened Text
  import opened Json

  // ---------------------------------------------------------------------
  // plugin.transform.slugify
  // ---------------------------------------------------------------------

  predicate NotAlnum(c: char) {
    !IsAlnum(c)
  }

  /** `re.sub(r"[^a-zA-Z0-9]+", sep, s)`: each maximal run of other characters becomes one `sep`. */
  function ReplaceRuns(s: string, sep: string): string
    decreases |s|
  {
    if s == [] then []
    else if NotAlnum(s[0]) then sep + ReplaceRuns(TrimLeft(s[1..], NotAlnum), sep)
    else [s[0]] + ReplaceRuns(s[1..], sep)
  }

  /** The slug of `text` with the separator `sep`. */
  function Slug(text: string, sep: string): string {
    Lower(StripChars(ReplaceRuns(text, sep), sep))
  }

  /** `separator` when it is a non-empty string, else `"-"`. */
  function Separator(inp: seq<(string, Value)>): (sep: string)
    ensures |sep| > 0
    ensures Get(inp, "separator").None? ==> sep == "-"
  {
    var v := Get(inp, "separator");
    if v.Some? && v.value.Str? && v.value.s != "" then v.value.s else "-"
  }

  /** `_handler` of plugin_transform_slugify_v1: `{"text": <slug>}`, refusing a non-string `text`. */
  function SlugifyHandler(inp: Value): (r: Result<Value, PyError>)
    ensures inp.Obj? && !(Get(inp.entries, "text").Some? && Get(inp.entries, "text").value.Str?) ==>
              r == Err(ValueError("'text' must be a string"))
    ensures inp.Obj? && Get(inp.entries, "text").Some? && Get(inp.entries, "text").value.Str? ==>
              r == Ok(Obj([("text", Str(Slug(Get(inp.entries, "text").value.s, Separator(inp.entries))))]))
  {
    if !inp.Obj? then Err(AttributeError)
    else
      var text := Get(inp.entries, "text");
      if text.None? || !text.value.Str? then Err(ValueError("'text' must be a string"))
      else Ok(Obj([("text", Str(Slug(text.value.s, Separator(inp.entries))))]))
  }

  /** Letters, digits and single dashes only. */
  predicate Dashed(t: string) {
    && (forall i :: 0 <= i < |t| ==> IsAlnum(t[i]) || t[i] == '-')
    && (forall i :: 0 <= i < |t| - 1 ==> !(t[i] == '-' && t[i + 1] == '-'))
  }

  /** The slug shape: lowercase letters, digits and single dashes, with no dash at either end. */
  predicate SlugShaped(t: string) {
    && (forall i :: 0 <= i < |t| ==> IsLower(t[i]) || IsDigit(t[i]) || t[i] == '-')
    && (forall i :: 0 <= i < |t| - 1 ==> !(t[i] == '-' && t[i + 1] == '-'))
    && (t == [] || (t[0] != '-' && t[|t| - 1] != '-'))
  }

  /** Where ReplaceRuns continues after its first character: past the whole run when that character starts one. */
  lemma RunsRest(s: string, sep: string) returns (k: nat)
    requires s != []
    ensures 1 <= k <= |s|
    ensures forall i :: 1 <= i < k ==> NotAlnum(s[i])
    ensures NotAlnum(s[0]) ==> ReplaceRuns(s, sep) == sep + ReplaceRuns(s[k..], sep) && (k == |s| || IsAlnum(s[k]))
    ensures !NotAlnum(s[0]) ==> ReplaceRuns(s, sep) == [s[0]] + ReplaceRuns(s[k..], sep) && k == 1
  {
    if NotAlnum(s[0]) {
      var t := TrimLeft(s[1..], NotAlnum);
      k := |s| - |t|;
      assert t == s[1..][|s[1..]| - |t|..];
      assert t == s[k..];
    } else {
      k := 1;
    }
  }

  lemma ConsDashed(h: char, t: string)
    requires Dashed(t) && (IsAlnum(h) || h == '-') && (h == '-' ==> t == [] || t[0] != '-')
    ensures Dashed([h] + t)
  {
    var r := [h] + t;
    forall i | 0 <= i < |r| - 1 ensures !(r[i] == '-' && r[i + 1] == '-') {
      assert r[i + 1] == t[i];
      if i > 0 {
        assert r[i] == t[i - 1];
      }
    }
    forall i | 0 <= i < |r| ensures IsAlnum(r[i]) || r[i] == '-' {
      if i > 0 {
        assert r[i] == t[i - 1];
      }
    }
  }

  /** With the dash as separator, the runs become single dashes between letters and digits. */
  lemma {:induction false} ReplaceRunsDashed(s: string)
    ensures Dashed(ReplaceRuns(s, "-"))
    ensures s != [] && IsAlnum(s[0]) ==> ReplaceRuns(s, "-") != [] && ReplaceRuns(s, "-")[0] == s[0]
    decreases |s|
  {
    if s != [] {
      var k := RunsRest(s, "-");
      ReplaceRunsDashed(s[k..]);
      ConsDashed(if NotAlnum(s[0]) then '-' else s[0], ReplaceRuns(s[k..], "-"));
    }
  }

  lemma SliceDashed(t: string, a: nat, b: nat)
    requires a <= b <= |t| && Dashed(t)
    ensures Dashed(t[a..b])
  {
    var u := t[a..b];
    forall i | 0 <= i < |u| - 1 ensures !(u[i] == '-' && u[i + 1] == '-') {
      assert u[i] == t[a + i] && u[i + 1] == t[a + i + 1];
    }
  }

  /** Lowercasing keeps the dashes and turns letters into lowercase ones. */
  lemma LowerDashed(t: string)
    requires Dashed(t) && (t == [] || (t[0] != '-' && t[|t| - 1] != '-'))
    ensures SlugShaped(Lower(t))
  {
    var u := Lower(t);
    forall i | 0 <= i < |u| ensures IsLower(u[i]) || IsDigit(u[i]) || u[i] == '-' {
      assert u[i] == ToLowerChar(t[i]);
    }
    forall i | 0 <= i < |u| - 1 ensures !(u[i] == '-' && u[i + 1] == '-') {
      assert u[i] == ToLowerChar(t[i]) && u[i + 1] == ToLowerChar(t[i + 1]);
    }
    if u != [] {
      assert u[0] == ToLowerChar(t[0]) && u[|u| - 1] == ToLowerChar(t[|t| - 1]);
    }
  }

  /**
   * With the default separator the slug holds only lowercase letters, digits and dashes,
   * never two dashes in a row, and no dash at either end.
   */
  lemma SlugShape(text: string)
    ensures SlugShaped(Slug(text, "-"))
  {
    var r := ReplaceRuns(text, "-");
    ReplaceRunsDashed(text);
    var a, b := StripCharsShape(r, "-");
    SliceDashed(r, a, b);
    LowerDashed(StripChars(r, "-"));
  }

  /** The characters of the separator are stripped from both ends as a set, before lowercasing. */
  lemma SlugEnds(text: string, sep: string)
    ensures var t := StripChars(ReplaceRuns(text, sep), sep);
            Slug(text, sep) == Lower(t) && (t == [] || (t[0] !in sep && t[|t| - 1] !in sep))
  {
    var a, b := StripCharsShape(ReplaceRuns(text, sep), sep);
  }

  lemma DashedTail(t: string)
    requires Dashed(t) && t != []
    ensures Dashed(t[1..])
  {
    var rest := t[1..];
    forall i | 0 <= i < |rest| - 1 ensures !(rest[i] == '-' && rest[i + 1] == '-') {
      assert rest[i] == t[i + 1] && rest[i + 1] == t[i + 2];
    }
  }

  /** A dashed text that does not start with a dash is kept by ReplaceRuns. */
  lemma {:induction false} ReplaceRunsOfDashed(t: string)
    requires Dashed(t) && (t == [] || t[0] != '-')
    ensures ReplaceRuns(t, "-") == t
    decreases |t|, 0
  {
    if t != [] {
      assert IsAlnum(t[0]);
      var rest := t[1..];
      DashedTail(t);
      if rest != [] && rest[0] == '-' {
        ReplaceRunsFromDash(rest);
      } else {
        ReplaceRunsOfDashed(rest);
      }
      assert t == [t[0]] + rest;
    }
  }

  /** A dashed text whose first dash is alone is kept by ReplaceRuns. */
  lemma {:induction false} ReplaceRunsFromDash(t: string)
    requires Dashed(t) && t != [] && t[0] == '-'
    ensures ReplaceRuns(t, "-") == t
    decreases |t|, 1
  {
    var k := RunsRest(t, "-");
    var rest := t[1..];
    assert k == 1 by {
      if |t| > 1 {
        assert !(t[0] == '-' && t[1] == '-');
        assert t[1] != '-' && IsAlnum(t[1]);
      }
    }
    DashedTail(t);
    if rest != [] {
      assert rest[0] == t[1];
    }
    ReplaceRunsOfDashed(rest);
    assert t == "-" + rest;
  }

  lemma LowerOfSlug(t: string)
    requires SlugShaped(t)
    ensures Lower(t) == t
  {
    forall i | 0 <= i < |t| ensures Lower(t)[i] == t[i] {
      assert !IsUpper(t[i]);
    }
  }

  /** Slugifying a slug (default separator) gives it back. */
  lemma SlugIdempotent(text: string)
    ensures Slug(Slug(text, "-"), "-") == Slug(text, "-")
  {
    var t := Slug(text, "-");
    SlugShape(text);
    assert Dashed(t) by {
      forall i | 0 <= i < |t| ensures IsAlnum(t[i]) || t[i] == '-' {
        assert IsLower(t[i]) || IsDigit(t[i]) || t[i] == '-';
      }
    }
    ReplaceRunsOfDashed(t);
    StripCharsNoEdges(t, "-");
    LowerOfSlug(t);
  }

  // ---------------------------------------------------------------------
  // plugin.transform.to_title_case
  // ---------------------------------------------------------------------

  /**
   * `str.title()` as CPython computes it: each character is lowercased when the character
   * before it is cased (a letter), and title-cased (here: uppercased) otherwise.
   */
  function TitleScan(s: string, prevCased: bool): (r: string)
    ensures |r| == |s|
    decreases |s|
  {
    if s == [] then []
    else [if prevCased then ToLowerChar(s[0]) else ToUpperChar(s[0])] + TitleScan(s[1..], IsLetter(s[0]))
  }

  function Title(s: string): string {
    TitleScan(s, false)
  }

  /** `_handler` of plugin_transform_to_title_case_v1. */
  function TitleCaseHandler(inp: Value): (r: Result<Value, PyError>)
    ensures inp.Obj? && !(Get(inp.entries, "text").Some? && Get(inp.entries, "text").value.Str?) ==>
              r == Err(ValueError("'text' must be a string"))
    ensures inp.Obj? && Get(inp.entries, "text").Some? && Get(inp.entries, "text").value.Str? ==>
              r == Ok(Obj([("text", Str(Title(Get(inp.entries, "text").value.s)))]))
  {
    if !inp.Obj? then Err(AttributeError)
    else
      var text := Get(inp.entries, "text");
      if text.None? || !text.value.Str? then Err(ValueError("'text' must be a string"))
      else Ok(Obj([("text", Str(Title(text.value.s)))]))
  }

  lemma LetterCase(c: char)
    requires IsLetter(c)
    ensures IsUpper(ToUpperChar(c)) && !IsLower(ToUpperChar(c))
    ensures IsLower(ToLowerChar(c)) && !IsUpper(ToLowerChar(c))
    ensures ToLowerChar(ToUpperChar(c)) == ToLowerChar(c)
  {
  }

  /** Whether a word starts at `i`: it is the first character or follows a non-letter. */
  predicate WordStart(s: string, i: nat, prevCased: bool)
    requires i < |s|
  {
    if i == 0 then !prevCased else !IsLetter(s[i - 1])
  }

  lemma {:induction false} TitleScanAt(s: string, prevCased: bool)
    ensures forall i :: 0 <= i < |s| ==>
      TitleScan(s, prevCased)[i] == if !IsLetter(s[i]) then s[i]
                                    else if WordStart(s, i, prevCased) then ToUpperChar(s[i])
                                    else ToLowerChar(s[i])
    decreases |s|
  {
    if s != [] {
      TitleScanAt(s[1..], IsLetter(s[0]));
      var r := TitleScan(s, prevCased);
      forall i | 0 < i < |s| ensures r[i] == TitleScan(s[1..], IsLetter(s[0]))[i - 1] && s[1..][i - 1] == s[i] {
      }
      forall i | 0 < i < |s| ensures WordStart(s, i, prevCased) == WordStart(s[1..], i - 1, IsLetter(s[0])) {
        if i > 1 {
          assert s[1..][i - 2] == s[i - 1];
        }
      }
    }
  }

  /**
   * The length is kept, a character that is not a letter is unchanged, and a letter is
   * uppercase exactly when it starts a word (first, or after a non-letter), lowercase otherwise.
   */
  lemma TitleAt(s: string)
    ensures |Title(s)| == |s|
    ensures forall i :: 0 <= i < |s| && !IsLetter(s[i]) ==> Title(s)[i] == s[i]
    ensures forall i :: 0 <= i < |s| && IsLetter(s[i]) ==>
              (IsUpper(Title(s)[i]) <==> i == 0 || !IsLetter(s[i - 1]))
              && (IsLower(Title(s)[i]) <==> i > 0 && IsLetter(s[i - 1]))
              && ToLowerChar(Title(s)[i]) == ToLowerChar(s[i])
  {
    TitleScanAt(s, false);
    forall i | 0 <= i < |s| && IsLetter(s[i])
      ensures (IsUpper(Title(s)[i]) <==> i == 0 || !IsLetter(s[i - 1]))
      ensures (IsLower(Title(s)[i]) <==> i > 0 && IsLetter(s[i - 1]))
      ensures ToLowerChar(Title(s)[i]) == ToLowerChar(s[i])
    {
      LetterCase(s[i]);
    }
  }

  lemma {:induction false} TitleScanIdempotent(s: string, prevCased: bool)
    ensures TitleScan(TitleScan(s, prevCased), prevCased) == TitleScan(s, prevCased)
    decreases |s|
  {
    if s != [] {
      var r := TitleScan(s, prevCased);
      TitleScanIdempotent(s[1..], IsLetter(s[0]));
      assert IsLetter(r[0]) == IsLetter(s[0]);
      assert r[1..] == TitleScan(s[1..], IsLetter(s[0]));
    }
  }

  /** Title-casing twice is title-casing once. */
  lemma TitleIdempotent(s: string)
    ensures Title(Title(s)) == Title(s)
  {
    TitleScanIdempotent(s, false);
  }
}
