/**
 * The Python `str` operations the workflow engine relies on, over Dafny strings
 * (sequences of code points): `isspace`, `strip`, `find`, `split`, `join`,
 * `replace`, `int(...)` on a string, `str(...)` of an integer and ASCII case mapping.
 */
module Text {
  import opened Wrappers

  /** `str.isspace()` of one character: what `strip()`, `split()` and the regex `\s` treat as white space. */
  predicate IsSpace(c: char) {
    || c == ' '
    || ('\t' <= c <= '\r')
    || ('\U{1c}' <= c <= '\U{1f}')
    || c == '\U{85}' || c == '\U{a0}' || c == '\U{1680}'
    || ('\U{2000}' <= c <= '\U{200a}')
    || c == '\U{2028}' || c == '\U{2029}' || c == '\U{202f}' || c == '\U{205f}' || c == '\U{3000}'
  }

  predicate IsDigit(c: char) { '0' <= c <= '9' }
  predicate IsUpper(c: char) { 'A' <= c <= 'Z' }
  predicate IsLower(c: char) { 'a' <= c <= 'z' }
  predicate IsLetter(c: char) { IsUpper(c) || IsLower(c) }
  predicate IsAlnum(c: char) { IsLetter(c) || IsDigit(c) }

  function ToLowerChar(c: char): char {
    if IsUpper(c) then (c as int + 32) as char else c
  }

  function ToUpperChar(c: char): char {
    if IsLower(c) then (c as int - 32) as char else c
  }

  /** `str.lower()` restricted to ASCII letters. */
  function Lower(s: string): string {
    seq(|s|, i requires 0 <= i < |s| => ToLowerChar(s[i]))
  }

  /** Drops leading characters satisfying `drop`. */
  function TrimLeft(s: string, drop: char -> bool): (r: string)
    ensures |r| <= |s| && r == s[|s| - |r|..]
    ensures r == [] || !drop(r[0])
    ensures forall i :: 0 <= i < |s| - |r| ==> drop(s[i])
  {
    if s == [] || !drop(s[0]) then s else TrimLeft(s[1..], drop)
  }

  /** Drops trailing characters satisfying `drop`. */
  function TrimRight(s: string, drop: char -> bool): (r: string)
    ensures |r| <= |s| && r == s[..|r|]
    ensures r == [] || !drop(r[|r| - 1])
    ensures forall i :: |r| <= i < |s| ==> drop(s[i])
  {
    if s == [] || !drop(s[|s| - 1]) then s else TrimRight(s[..|s| - 1], drop)
  }

  /** `str.strip(chars)` for the character class `drop`. */
  function StripWith(s: string, drop: char -> bool): string {
    TrimRight(TrimLeft(s, drop), drop)
  }

  /** `str.strip()`. */
  function Strip(s: string): string {
    StripWith(s, IsSpace)
  }

  /** `str.strip(chars)`: every character of `chars` is stripped from both ends. */
  function StripChars(s: string, chars: string): string {
    StripWith(s, c => c in chars)
  }

  /** Stripping keeps a slice of the string. */
  lemma StripWithSlice(t: string, drop: char -> bool) returns (a: nat, b: nat)
    ensures a <= b <= |t| && StripWith(t, drop) == t[a..b]
  {
    var l := TrimLeft(t, drop);
    var r := TrimRight(l, drop);
    a, b := |t| - |l|, |t| - |l| + |r|;
    assert l == t[a..];
    assert r == l[..|r|];
  }

  /** Stripping leaves no character of the class at either end. */
  lemma StripWithEdges(t: string, drop: char -> bool)
    ensures var r := StripWith(t, drop); r == [] || (!drop(r[0]) && !drop(r[|r| - 1]))
  {
    var l := TrimLeft(t, drop);
    PrefixEdges(l, TrimRight(l, drop), drop);
  }

  lemma PrefixEdges(l: string, r: string, drop: char -> bool)
    requires |r| <= |l| && r == l[..|r|]
    requires l == [] || !drop(l[0])
    requires r == [] || !drop(r[|r| - 1])
    ensures r == [] || (!drop(r[0]) && !drop(r[|r| - 1]))
  {
    if r != [] {
      assert r[0] == l[0];
    }
  }

  /** Stripping leaves nothing exactly when every character is of the class. */
  lemma StripWithEmpty(s: string, drop: char -> bool)
    ensures StripWith(s, drop) == [] <==> forall i :: 0 <= i < |s| ==> drop(s[i])
  {
    var l := TrimLeft(s, drop);
    if l != [] {
      assert !drop(s[|s| - |l|]);
    }
  }

  /** `strip(chars)` keeps a slice with no character of `chars` at either end. */
  lemma StripCharsShape(t: string, chars: string) returns (a: nat, b: nat)
    ensures a <= b <= |t| && StripChars(t, chars) == t[a..b]
    ensures var r := StripChars(t, chars); r == [] || (r[0] !in chars && r[|r| - 1] !in chars)
  {
    a, b := StripWithSlice(t, c => c in chars);
    StripWithEdges(t, c => c in chars);
  }

  /** A string that neither starts nor ends with a character of `chars` is its own `strip(chars)`. */
  lemma StripCharsNoEdges(s: string, chars: string)
    requires s == [] || (s[0] !in chars && s[|s| - 1] !in chars)
    ensures StripChars(s, chars) == s
  {
    StripWithNoEdges(s, c => c in chars);
  }

  /** A string with no leading or trailing white space is its own `strip()`. */
  lemma StripWithNoEdges(s: string, drop: char -> bool)
    requires s == [] || (!drop(s[0]) && !drop(s[|s| - 1]))
    ensures StripWith(s, drop) == s
  {
  }

  /** `sub` occurs in `s` starting at index `j`. */
  predicate OccursAt(s: string, sub: string, j: nat) {
    j + |sub| <= |s| && s[j..j + |sub|] == sub
  }

  lemma OccursAtTail(s: string, sub: string, j: nat)
    requires |s| > 0
    ensures OccursAt(s, sub, j + 1) <==> OccursAt(s[1..], sub, j)
  {
    if j + 1 + |sub| <= |s| {
      assert s[j + 1..j + 1 + |sub|] == s[1..][j..j + |sub|];
    }
  }

  /** `str.find(sub)`: the first index where `sub` occurs, or None (-1 in Python). */
  function Find(s: string, sub: string): (r: Option<nat>)
    ensures r.Some? ==> OccursAt(s, sub, r.value)
    ensures r.Some? ==> forall j: nat :: j < r.value ==> !OccursAt(s, sub, j)
    ensures r.None? ==> forall j: nat :: !OccursAt(s, sub, j)
    decreases |s|
  {
    if |s| < |sub| then None
    else if sub <= s then Some(0)
    else
      match Find(s[1..], sub)
      case None =>
        assert forall j: nat :: !OccursAt(s, sub, j) by {
          forall j: nat ensures !OccursAt(s, sub, j) {
            if j > 0 { OccursAtTail(s, sub, j - 1); }
          }
        }
        None
      case Some(i) =>
        assert forall j: nat :: j < i + 1 ==> !OccursAt(s, sub, j) by {
          forall j: nat | j < i + 1 ensures !OccursAt(s, sub, j) {
            if j > 0 { OccursAtTail(s, sub, j - 1); }
          }
        }
        OccursAtTail(s, sub, i);
        Some(i + 1)
  }

  /** Find returns the first occurrence. */
  lemma FindFirst(s: string, sub: string, i: nat)
    requires OccursAt(s, sub, i)
    requires forall j: nat :: j < i ==> !OccursAt(s, sub, j)
    ensures Find(s, sub) == Some(i)
  {
  }

  /** Text appended after an occurrence does not move the first one. */
  lemma FindExtend(s: string, rest: string, sub: string)
    requires Find(s, sub).Some?
    ensures Find(s + rest, sub) == Find(s, sub)
  {
    var i := Find(s, sub).value;
    var t := s + rest;
    assert t[i..i + |sub|] == s[i..i + |sub|];
    forall j: nat | j < i ensures !OccursAt(t, sub, j) {
      assert !OccursAt(s, sub, j);
      assert t[j..j + |sub|] == s[j..j + |sub|];
    }
    FindFirst(t, sub, i);
  }

  /** `sub in s`. */
  predicate Contains(s: string, sub: string) {
    Find(s, sub).Some?
  }

  predicate StartsWith(s: string, prefix: string) {
    prefix <= s
  }

  predicate EndsWith(s: string, suffix: string) {
    |suffix| <= |s| && s[|s| - |suffix|..] == suffix
  }

  lemma OccursAtInit(s: string, sub: string, j: nat)
    requires |s| > 0 && j + |sub| < |s|
    ensures OccursAt(s, sub, j) <==> OccursAt(s[..|s| - 1], sub, j)
  {
    assert s[j..j + |sub|] == s[..|s| - 1][j..j + |sub|];
  }

  /** `str.rfind(sub)`: the last index where `sub` occurs, or None (-1 in Python). */
  function RFind(s: string, sub: string): (r: Option<nat>)
    ensures r.Some? ==> OccursAt(s, sub, r.value)
    ensures r.Some? ==> forall j: nat :: r.value < j ==> !OccursAt(s, sub, j)
    ensures r.None? ==> forall j: nat :: !OccursAt(s, sub, j)
    decreases |s|
  {
    if |s| < |sub| then None
    else if OccursAt(s, sub, |s| - |sub|) then Some(|s| - |sub|)
    else
      var r := RFind(s[..|s| - 1], sub);
      forall j: nat | j + |sub| < |s| ensures OccursAt(s, sub, j) <==> OccursAt(s[..|s| - 1], sub, j) {
        OccursAtInit(s, sub, j);
      }
      if r.Some? then
        assert OccursAt(s, sub, r.value);
        Some(r.value)
      else None
  }

  /** `str.split(sep)` for a non-empty separator. */
  function Split(s: string, sep: string): (r: seq<string>)
    requires |sep| > 0
    ensures |r| >= 1
    decreases |s|
  {
    var f := Find(s, sep);
    if f.None? then [s] else [s[..f.value]] + Split(s[f.value + |sep|..], sep)
  }

  /** `sep.join(parts)`. */
  function Join(parts: seq<string>, sep: string): string
  {
    if |parts| == 0 then ""
    else if |parts| == 1 then parts[0]
    else parts[0] + sep + Join(parts[1..], sep)
  }

  /** `str.replace(pat, rep)` for a non-empty `pat`: leftmost, non-overlapping occurrences. */
  function ReplaceAll(s: string, pat: string, rep: string): string
    requires |pat| > 0
    decreases |s|
  {
    var f := Find(s, pat);
    if f.None? then s else s[..f.value] + rep + ReplaceAll(s[f.value + |pat|..], pat, rep)
  }

  lemma JoinCons(a: string, tail: seq<string>, sep: string)
    requires |tail| >= 1
    ensures Join([a] + tail, sep) == a + sep + Join(tail, sep)
  {
    assert ([a] + tail)[1..] == tail;
  }

  /** One step of a split: the piece before the first separator, then the split of the rest. */
  lemma SplitStep(s: string, sep: string, i: nat)
    requires |sep| > 0 && Find(s, sep) == Some(i)
    ensures Split(s, sep) == [s[..i]] + Split(s[i + |sep|..], sep)
  {
    var f := Find(s, sep);
    assert f.Some? && f.value == i;
    assert Split(s, sep) == [s[..f.value]] + Split(s[f.value + |sep|..], sep);
  }

  /** An occurrence cuts the string into the text before it, the needle, and the text after it. */
  lemma OccurrenceCuts(s: string, sub: string, i: nat)
    requires OccursAt(s, sub, i)
    ensures s == s[..i] + sub + s[i + |sub|..]
  {
    assert s == s[..i] + s[i..i + |sub|] + s[i + |sub|..];
  }

  /** Joining the pieces of a split with the separator gives back the string. */
  lemma {:induction false} JoinSplit(s: string, sep: string)
    requires |sep| > 0
    ensures Join(Split(s, sep), sep) == s
    decreases |s|
  {
    var f := Find(s, sep);
    if f.Some? {
      var i := f.value;
      var rest := s[i + |sep|..];
      JoinSplit(rest, sep);
      SplitStep(s, sep, i);
      OccurrenceCuts(s, sep, i);
      JoinCons(s[..i], Split(rest, sep), sep);
    }
  }

  /** Splitting on a one-character separator that no part contains gives back the parts. */
  lemma {:induction false} SplitJoin(parts: seq<string>, sep: string)
    requires |sep| == 1 && |parts| >= 1
    requires forall k :: 0 <= k < |parts| ==> sep[0] !in parts[k]
    ensures Split(Join(parts, sep), sep) == parts
  {
    var p := parts[0];
    if |parts| == 1 {
      NoCharNotFound(p, sep);
    } else {
      var s := Join(parts, sep);
      assert s == p + sep + Join(parts[1..], sep);
      NoCharNotFound(p, sep);
      assert OccursAt(s, sep, |p|) by {
        assert s[|p|..|p| + 1] == sep;
      }
      forall j: nat | j < |p| ensures !OccursAt(s, sep, j) {
        assert s[j..j + 1][0] == p[j];
      }
      FindFirst(s, sep, |p|);
      assert s[..|p|] == p;
      assert s[|p| + 1..] == Join(parts[1..], sep);
      SplitJoin(parts[1..], sep);
    }
  }

  /** Where a one-character needle is found, that character sits, and none comes before it; where it is not found, none is there. */
  lemma FindChar(s: string, sub: string)
    requires |sub| == 1
    ensures Find(s, sub).None? ==> sub[0] !in s
    ensures Find(s, sub).Some? ==> Find(s, sub).value < |s| && s[Find(s, sub).value] == sub[0] && sub[0] !in s[..Find(s, sub).value]
  {
    var f := Find(s, sub);
    if f.Some? {
      assert s[f.value..f.value + 1] == sub;
      forall j | 0 <= j < f.value ensures s[j] != sub[0] {
        assert !OccursAt(s, sub, j);
        assert s[j..j + 1][0] == s[j];
      }
    } else {
      forall j | 0 <= j < |s| ensures s[j] != sub[0] {
        assert !OccursAt(s, sub, j);
        assert s[j..j + 1][0] == s[j];
      }
    }
  }

  /** Stripping adds no character. */
  lemma StripInside(s: string, c: char)
    requires c !in s
    ensures c !in Strip(s)
  {
    var l := TrimLeft(s, IsSpace);
    assert l == s[|s| - |l|..];
    assert Strip(s) == l[..|Strip(s)|];
  }

  /** A character found in neither the parts nor the separator is not in their join. */
  lemma {:induction false} JoinNoChar(parts: seq<string>, sep: string, c: char)
    requires c !in sep && forall k :: 0 <= k < |parts| ==> c !in parts[k]
    ensures c !in Join(parts, sep)
  {
    if |parts| > 1 {
      JoinNoChar(parts[1..], sep, c);
    }
  }

  /** The join begins with the first part. */
  lemma JoinHead(parts: seq<string>, sep: string)
    requires |parts| >= 1
    ensures parts[0] <= Join(parts, sep)
  {
  }

  /** The first occurrence of a one-character needle in `pre + rest` starts `rest` when `pre` lacks that character. */
  lemma FindAfter(pre: string, rest: string, sub: string, s: string)
    requires |sub| == 1 && sub[0] !in pre && |rest| > 0 && rest[0] == sub[0] && s == pre + rest
    ensures Find(s, sub) == Some(|pre|)
  {
    assert s[|pre|..|pre| + 1] == sub;
    forall j: nat | j < |pre| ensures !OccursAt(s, sub, j) {
      assert s[j..j + 1][0] == pre[j];
    }
    FindFirst(s, sub, |pre|);
  }

  /** A string without the character of a one-character needle does not contain it. */
  lemma NoCharNotFound(s: string, sep: string)
    requires |sep| == 1 && sep[0] !in s
    ensures Find(s, sep) == None
  {
    forall j: nat ensures !OccursAt(s, sep, j) {
      if j + 1 <= |s| {
        assert s[j..j + 1][0] == s[j];
      }
    }
  }

  /** `s.split(sep)[-1]`: the last piece of a split. */
  function LastPiece(s: string, sep: string): string
    requires |sep| > 0
  {
    var p := Split(s, sep);
    p[|p| - 1]
  }

  /**
   * `l` is the longest suffix of `s` without `c`: the whole of `s` when `c` does not occur
   * in it, else what follows the last occurrence of `c`.
   */
  predicate LastRun(s: string, c: char, l: string) {
    && |l| <= |s| && s[|s| - |l|..] == l && c !in l
    && (|l| == |s| <==> c !in s)
    && (|l| < |s| ==> s[|s| - |l| - 1] == c)
  }

  /**
   * The last piece of a split on a one-character separator is the longest suffix without
   * that character.
   */
  lemma {:induction false} SplitLast(s: string, sep: string)
    requires |sep| == 1
    ensures LastRun(s, sep[0], LastPiece(s, sep))
    decreases |s|
  {
    FindChar(s, sep);
    var f := Find(s, sep);
    if f.None? {
      LastPieceNone(s, sep);
      NoSepRun(s, sep[0]);
    } else {
      var i := f.value;
      LastPieceStep(s, sep, i);
      SplitLast(s[i + 1..], sep);
      SuffixAfter(s, i, sep[0], LastPiece(s[i + 1..], sep));
    }
  }

  lemma LastPieceNone(s: string, sep: string)
    requires |sep| > 0 && Find(s, sep).None?
    ensures LastPiece(s, sep) == s
  {
    assert Split(s, sep) == [s];
  }

  /** Past the first separator, the last piece is that of the rest. */
  lemma LastPieceStep(s: string, sep: string, i: nat)
    requires |sep| > 0 && Find(s, sep) == Some(i)
    ensures LastPiece(s, sep) == LastPiece(s[i + |sep|..], sep)
  {
    SplitStep(s, sep, i);
    var tail := Split(s[i + |sep|..], sep);
    assert Split(s, sep) == [s[..i]] + tail;
    assert ([s[..i]] + tail)[|tail|] == tail[|tail| - 1];
  }

  /** A string without `c` is its own longest suffix without `c`. */
  lemma NoSepRun(s: string, c: char)
    requires c !in s
    ensures LastRun(s, c, s)
  {
    assert s[|s| - |s|..] == s;
  }

  /** The longest suffix without `c` of what follows an occurrence of `c` is also that of `s`. */
  lemma SuffixAfter(s: string, i: nat, c: char, l: string)
    requires i < |s| && s[i] == c && LastRun(s[i + 1..], c, l)
    ensures LastRun(s, c, l)
  {
    var rest := s[i + 1..];
    assert s[|s| - |l|..] == rest[|rest| - |l|..];
    assert s[i] in s;
    if |l| < |rest| {
      assert s[|s| - |l| - 1] == rest[|rest| - |l| - 1];
    }
  }

  /** Replacing one character by another maps the string character by character. */
  lemma {:induction false} ReplaceChar(s: string, a: char, b: char)
    ensures |ReplaceAll(s, [a], [b])| == |s|
    ensures forall k :: 0 <= k < |s| ==> ReplaceAll(s, [a], [b])[k] == if s[k] == a then b else s[k]
    decreases |s|
  {
    FindChar(s, [a]);
    var f := Find(s, [a]);
    var r := ReplaceAll(s, [a], [b]);
    if f.Some? {
      var i := f.value;
      var rest := s[i + 1..];
      ReplaceChar(rest, a, b);
      var tail := ReplaceAll(rest, [a], [b]);
      assert r == s[..i] + [b] + tail;
      forall k | 0 <= k < |s| ensures r[k] == if s[k] == a then b else s[k] {
        if k < i {
          assert s[k] in s[..i];
        } else if i < k {
          assert r[k] == tail[k - i - 1] && s[k] == rest[k - i - 1];
        }
      }
    } else {
      assert r == s;
    }
  }

  /** `str.replace` is `rep.join(s.split(pat))`. */
  lemma {:induction false} ReplaceIsJoinOfSplit(s: string, pat: string, rep: string)
    requires |pat| > 0
    ensures ReplaceAll(s, pat, rep) == Join(Split(s, pat), rep)
    decreases |s|
  {
    var f := Find(s, pat);
    if f.Some? {
      var i := f.value;
      ReplaceIsJoinOfSplit(s[i + |pat|..], pat, rep);
      SplitStep(s, pat, i);
      JoinCons(s[..i], Split(s[i + |pat|..], pat), rep);
    }
  }

  // ---------------------------------------------------------------------
  // int(text) and str(int)
  // ---------------------------------------------------------------------

  /** Digits with single underscores between them, as Python's `int()` accepts. */
  predicate ValidDigits(d: string) {
    && |d| > 0 && IsDigit(d[0]) && IsDigit(d[|d| - 1])
    && (forall i :: 0 <= i < |d| ==> IsDigit(d[i]) || d[i] == '_')
    && (forall i :: 0 <= i < |d| - 1 ==> !(d[i] == '_' && d[i + 1] == '_'))
  }

  /** The decimal value of a digit string, underscores ignored. */
  function DigitsValue(d: string): nat {
    if d == [] then 0
    else if IsDigit(d[|d| - 1]) then DigitsValue(d[..|d| - 1]) * 10 + (d[|d| - 1] as int - '0' as int)
    else DigitsValue(d[..|d| - 1])
  }

  /** Python's `int(s)` on a string: white space around, an optional sign, decimal digits. */
  function ParseInt(s: string): (r: Option<int>)
    ensures r.Some? ==> exists k :: 0 <= k <= |Strip(s)| && ValidDigits(Strip(s)[k..])
  {
    var t := Strip(s);
    if |t| > 0 && (t[0] == '+' || t[0] == '-') then
      if ValidDigits(t[1..]) then
        var v: int := DigitsValue(t[1..]);
        Some(if t[0] == '-' then -v else v)
      else None
    else if ValidDigits(t) then
      assert t[0..] == t;
      Some(DigitsValue(t))
    else None
  }

  function DigitChar(d: nat): char
    requires d < 10
  {
    ('0' as int + d) as char
  }

  /** `str(n)` for a non-negative integer. */
  function NatToString(n: nat): (r: string)
    ensures |r| > 0 && forall i :: 0 <= i < |r| ==> IsDigit(r[i])
  {
    if n < 10 then [DigitChar(n)] else NatToString(n / 10) + [DigitChar(n % 10)]
  }

  /** `str(n)` for an integer. */
  function IntToString(n: int): string {
    if n < 0 then "-" + NatToString(-n) else NatToString(n)
  }

  lemma {:induction false} NatToStringValue(n: nat)
    ensures ValidDigits(NatToString(n)) && DigitsValue(NatToString(n)) == n
  {
    var s := NatToString(n);
    if n >= 10 {
      NatToStringValue(n / 10);
      assert s[..|s| - 1] == NatToString(n / 10);
    }
  }

  lemma DigitNotSpace(c: char)
    requires IsDigit(c) || c == '-'
    ensures !IsSpace(c)
  {
  }

  /** `int(str(n)) == n`: the integer parser reads back what `str` prints. */
  lemma ParseIntOfIntToString(n: int)
    ensures ParseInt(IntToString(n)) == Some(n)
  {
    var s := IntToString(n);
    if n < 0 {
      ParseIntOfNegative(-n, s);
    } else {
      ParseIntOfNatToString(n, s);
    }
  }

  lemma ParseIntOfNatToString(m: nat, s: string)
    requires s == NatToString(m)
    ensures ParseInt(s) == Some(m)
  {
    NatToStringValue(m);
    DigitNotSpace(s[0]);
    DigitNotSpace(s[|s| - 1]);
    StripWithNoEdges(s, IsSpace);
    assert s[0] != '+' && s[0] != '-';
  }

  lemma ParseIntOfNegative(m: nat, s: string)
    requires s == "-" + NatToString(m)
    ensures ParseInt(s) == Some(-(m as int))
  {
    var d := NatToString(m);
    NatToStringValue(m);
    DigitNotSpace(s[0]);
    assert s[|s| - 1] == d[|d| - 1];
    DigitNotSpace(d[|d| - 1]);
    StripWithNoEdges(s, IsSpace);
    assert s[1..] == d;
  }
}
