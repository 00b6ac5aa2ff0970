/**
 * The Python string operations the scrapers rely on, over `string` (= `seq<char>`):
 * `strip`, `in`, `find`, `startswith`, `endswith`, `replace`, `split(sep)`, `sep.join`,
 * and the few regular-expression pieces they share (a run of decimal digits, `int()` and `str()`).
 */
module Text {
  import opened Wrappers

  /** Python 2 `str.isspace` on one character: the six ASCII whitespace characters. */
  predicate IsSpace(c: char) {
    c == ' ' || c == '\t' || c == '\n' || c == '\r' || c == '\U{000B}' || c == '\U{000C}'
  }

  /** The regex class `\d` on a Python 2 `str`. */
  predicate IsDigit(c: char) {
    '0' <= c <= '9'
  }

  /** The regex class `[A-Z]`. */
  predicate IsUpper(c: char) {
    'A' <= c <= 'Z'
  }

  predicate AllDigits(s: string) {
    forall k :: 0 <= k < |s| ==> IsDigit(s[k])
  }

  predicate SpacesOnly(s: string) {
    forall k :: 0 <= k < |s| ==> IsSpace(s[k])
  }

  /** A string that `strip` leaves alone: no whitespace at either end. */
  predicate Unpadded(s: string) {
    s == [] || (!IsSpace(s[0]) && !IsSpace(s[|s| - 1]))
  }

  // ---------------------------------------------------------------- strip

  /** Python `str.lstrip()`: `s` without its leading whitespace. */
  function TrimStart(s: string): string
  {
    if s != [] && IsSpace(s[0]) then TrimStart(s[1..]) else s
  }

  /** `lstrip` keeps a suffix, removes only whitespace, and leaves no whitespace in front. */
  lemma {:induction false} TrimStartSpec(s: string)
    ensures var r := TrimStart(s);
      && |r| <= |s| && r == s[|s| - |r|..] && SpacesOnly(s[..|s| - |r|]) && (r == [] || !IsSpace(r[0]))
  {
    if s != [] && IsSpace(s[0]) {
      TrimStartSpec(s[1..]);
      var r := TrimStart(s);
      assert s[..|s| - |r|] == [s[0]] + s[1..][..|s| - 1 - |r|];
    }
  }

  /** Python `str.rstrip()`: `s` without its trailing whitespace. */
  function TrimEnd(s: string): string
  {
    if s != [] && IsSpace(s[|s| - 1]) then TrimEnd(s[..|s| - 1]) else s
  }

  /** `rstrip` keeps a prefix, removes only whitespace, and leaves no whitespace at the end. */
  lemma {:induction false} TrimEndSpec(s: string)
    ensures var r := TrimEnd(s);
      && |r| <= |s| && r == s[..|r|] && SpacesOnly(s[|r|..]) && (r == [] || !IsSpace(r[|r| - 1]))
  {
    if s != [] && IsSpace(s[|s| - 1]) {
      var init := s[..|s| - 1];
      TrimEndSpec(init);
      var r := TrimEnd(s);
      assert s[|r|..] == init[|r|..] + [s[|s| - 1]];
    }
  }

  /** Python `str.strip()`: `s` with its leading and trailing whitespace cut off. */
  function Strip(s: string): string
  {
    TrimEnd(TrimStart(s))
  }

  /** `strip` leaves no whitespace at either end, and removes only whitespace, and only at the two ends. */
  lemma StripSpec(s: string)
    ensures var r := Strip(s);
      && Unpadded(r) && |r| <= |s|
      && exists i :: 0 <= i <= |s| - |r| && SpacesOnly(s[..i]) && s[i..i + |r|] == r && SpacesOnly(s[i + |r|..])
  {
    var t := TrimStart(s);
    TrimStartSpec(s);
    TrimEndSpec(t);
    var r := TrimEnd(t);
    var i := |s| - |t|;
    assert t == s[i..];
    assert r == s[i..i + |r|];
    assert s[i + |r|..] == t[|r|..];
  }

  /** Whitespace around an unpadded string is exactly what `strip` removes. */
  lemma {:induction false} StripPadded(pre: string, s: string, post: string)
    requires SpacesOnly(pre) && SpacesOnly(post) && Unpadded(s)
    ensures Strip(pre + s + post) == s
  {
    if s == [] {
      assert pre + s + post == pre + post;
      assert SpacesOnly(pre + post);
      TrimStartSpaces(pre + post);
    } else {
      assert pre + s + post == pre + (s + post);
      StripPaddedStart(pre, s + post);
      StripPaddedEnd(s, post);
    }
  }

  lemma {:induction false} TrimStartSpaces(t: string)
    requires SpacesOnly(t)
    ensures TrimStart(t) == []
  {
    if t != [] {
      TrimStartSpaces(t[1..]);
    }
  }

  lemma {:induction false} StripPaddedStart(pre: string, s: string)
    requires SpacesOnly(pre) && (s == [] || !IsSpace(s[0]))
    ensures TrimStart(pre + s) == s
  {
    if pre != [] {
      assert (pre + s)[1..] == pre[1..] + s;
      StripPaddedStart(pre[1..], s);
    }
  }

  lemma {:induction false} StripPaddedEnd(s: string, post: string)
    requires SpacesOnly(post) && (s == [] || !IsSpace(s[|s| - 1]))
    ensures TrimEnd(s + post) == s
  {
    if post != [] {
      assert (s + post)[..|s + post| - 1] == s + post[..|post| - 1];
      StripPaddedEnd(s, post[..|post| - 1]);
    }
  }

  // ---------------------------------------------------------------- Unicode strip

  /** `str.isspace` on a Python 3 `str`, and the regex class `\s` there: ASCII and Unicode whitespace. */
  predicate IsWhite(c: char) {
    || ('\t' <= c <= '\r') || ('\U{001C}' <= c <= ' ') || c == '\U{0085}' || c == '\U{00A0}' || c == '\U{1680}'
    || ('\U{2000}' <= c <= '\U{200A}') || ('\U{2028}' <= c <= '\U{2029}') || c == '\U{202F}' || c == '\U{205F}'
    || c == '\U{3000}'
  }

  /**
   * `unicode.isspace` in Python 2, whose character database is Unicode 5.2: the same characters
   * and U+180E MONGOLIAN VOWEL SEPARATOR, which Unicode 6.3 stopped counting as a space.
   */
  predicate IsWhite2(c: char) {
    IsWhite(c) || c == '\U{180E}'
  }

  predicate WhiteOnly(s: string, white: char -> bool) {
    forall k :: 0 <= k < |s| ==> white(s[k])
  }

  /** A string that a Unicode `strip` with whitespace `white` leaves alone. */
  predicate Trimmed(s: string, white: char -> bool) {
    s == [] || (!white(s[0]) && !white(s[|s| - 1]))
  }

  /** `lstrip()` of a Unicode string whose whitespace characters are those `white` accepts. */
  function LStrip(s: string, white: char -> bool): string {
    if s != [] && white(s[0]) then LStrip(s[1..], white) else s
  }

  /** `rstrip()` of a Unicode string whose whitespace characters are those `white` accepts. */
  function RStrip(s: string, white: char -> bool): string {
    if s != [] && white(s[|s| - 1]) then RStrip(s[..|s| - 1], white) else s
  }

  /** `strip()` of a Unicode string: `white` is `IsWhite` for a Python 3 `str`, `IsWhite2` for a Python 2 `unicode`. */
  function UStrip(s: string, white: char -> bool): string {
    RStrip(LStrip(s, white), white)
  }

  lemma {:induction false} LStripSpec(s: string, white: char -> bool)
    ensures var r := LStrip(s, white);
      |r| <= |s| && r == s[|s| - |r|..] && WhiteOnly(s[..|s| - |r|], white) && (r == [] || !white(r[0]))
  {
    if s != [] && white(s[0]) {
      LStripSpec(s[1..], white);
      var r := LStrip(s, white);
      assert s[..|s| - |r|] == [s[0]] + s[1..][..|s| - 1 - |r|];
    }
  }

  lemma {:induction false} RStripSpec(s: string, white: char -> bool)
    ensures var r := RStrip(s, white);
      |r| <= |s| && r == s[..|r|] && WhiteOnly(s[|r|..], white) && (r == [] || !white(r[|r| - 1]))
  {
    if s != [] && white(s[|s| - 1]) {
      var init := s[..|s| - 1];
      RStripSpec(init, white);
      var r := RStrip(s, white);
      assert s[|r|..] == init[|r|..] + [s[|s| - 1]];
    }
  }

  /** `strip` leaves no whitespace at either end and removes only whitespace around a middle part. */
  lemma UStripSpec(s: string, white: char -> bool)
    ensures var r := UStrip(s, white);
      && Trimmed(r, white)
      && exists i :: 0 <= i <= |s| - |r| && WhiteOnly(s[..i], white) && s[i..i + |r|] == r && WhiteOnly(s[i + |r|..], white)
  {
    var t := LStrip(s, white);
    LStripSpec(s, white);
    RStripSpec(t, white);
    var r := RStrip(t, white);
    var i := |s| - |t|;
    assert t == s[i..];
    assert r == s[i..i + |r|];
    assert s[i + |r|..] == t[|r|..];
  }

  /** Whitespace around a trimmed string is exactly what `strip` removes. */
  lemma {:induction false} UStripPadded(pre: string, s: string, post: string, white: char -> bool)
    requires WhiteOnly(pre, white) && WhiteOnly(post, white) && Trimmed(s, white)
    ensures UStrip(pre + s + post, white) == s
  {
    if s == [] {
      assert pre + s + post == pre + post;
      LStripWhite(pre + post, white);
    } else {
      assert pre + s + post == pre + (s + post);
      LStripPadded(pre, s + post, white);
      RStripPadded(s, post, white);
    }
  }

  lemma {:induction false} LStripWhite(t: string, white: char -> bool)
    requires WhiteOnly(t, white)
    ensures LStrip(t, white) == []
  {
    if t != [] {
      LStripWhite(t[1..], white);
    }
  }

  lemma {:induction false} LStripPadded(pre: string, s: string, white: char -> bool)
    requires WhiteOnly(pre, white) && (s == [] || !white(s[0]))
    ensures LStrip(pre + s, white) == s
  {
    if pre != [] {
      assert (pre + s)[1..] == pre[1..] + s;
      LStripPadded(pre[1..], s, white);
    }
  }

  lemma {:induction false} RStripPadded(s: string, post: string, white: char -> bool)
    requires WhiteOnly(post, white) && (s == [] || !white(s[|s| - 1]))
    ensures RStrip(s + post, white) == s
  {
    if post != [] {
      assert (s + post)[..|s + post| - 1] == s + post[..|post| - 1];
      RStripPadded(s, post[..|post| - 1], white);
    }
  }

  // ---------------------------------------------------------------- text that lxml gives back

  /** Only ASCII characters. Under Python 2, lxml gives back such a text as a `str`, and any other as `unicode`. */
  predicate IsAscii(s: string) {
    forall k :: 0 <= k < |s| ==> s[k] < '\U{0080}'
  }

  /** Python 2 `strip()` of a value that is a `unicode` when `isUnicode` and a `str` otherwise. */
  function StripOf(s: string, isUnicode: bool): string {
    if isUnicode then UStrip(s, IsWhite2) else Strip(s)
  }

  /**
   * `t.strip()` of a text lxml gave back under Python 2: a `str` loses its ASCII whitespace,
   * a `unicode` its Unicode whitespace, U+00A0 (the `&nbsp;` entity) among it.
   */
  function TextStrip(t: string): string {
    StripOf(t, !IsAscii(t))
  }

  /** A text whose `strip` is empty: ASCII whitespace only, or Unicode whitespace only with a character outside ASCII. */
  predicate BlankText(t: string) {
    SpacesOnly(t) || (!IsAscii(t) && WhiteOnly(t, IsWhite2))
  }

  /** A text that `strip` leaves alone: no ASCII whitespace at its ends, and, for a `unicode`, no Unicode whitespace. */
  predicate TextTrimmed(t: string) {
    Unpadded(t) && (!IsAscii(t) ==> Trimmed(t, IsWhite2))
  }

  /** The ASCII whitespace of a `str` is Unicode whitespace in a `unicode`. */
  lemma SpacesAreWhite(s: string)
    requires SpacesOnly(s)
    ensures WhiteOnly(s, IsWhite2)
  {
  }

  /** A slice of an ASCII text is ASCII. */
  lemma AsciiSlice(t: string, i: int, j: int)
    requires IsAscii(t) && 0 <= i <= j <= |t|
    ensures IsAscii(t[i..j])
  {
    forall k | 0 <= k < j - i ensures t[i..j][k] < '\U{0080}' {
      assert t[i..j][k] == t[i + k];
    }
  }

  /** The case of a `str`: an ASCII text stripped of ASCII whitespace. */
  lemma StripAsciiSpec(t: string)
    requires IsAscii(t)
    ensures var r := Strip(t);
      && TextTrimmed(r)
      && exists i :: 0 <= i <= |t| - |r| && WhiteOnly(t[..i], IsWhite2) && t[i..i + |r|] == r && WhiteOnly(t[i + |r|..], IsWhite2)
  {
    var r := Strip(t);
    StripSpec(t);
    var i :| 0 <= i <= |t| - |r| && SpacesOnly(t[..i]) && t[i..i + |r|] == r && SpacesOnly(t[i + |r|..]);
    SpacesAreWhite(t[..i]);
    SpacesAreWhite(t[i + |r|..]);
    AsciiSlice(t, i, i + |r|);
  }

  /**
   * The stripped text is left alone by a second `strip`, and is the text less whitespace
   * (in the sense of its type) at the two ends.
   */
  lemma TextStripSpec(t: string)
    ensures var r := TextStrip(t);
      && TextTrimmed(r)
      && exists i :: 0 <= i <= |t| - |r| && WhiteOnly(t[..i], IsWhite2) && t[i..i + |r|] == r && WhiteOnly(t[i + |r|..], IsWhite2)
  {
    if IsAscii(t) {
      StripAsciiSpec(t);
    } else {
      UStripSpec(t, IsWhite2);
    }
  }

  /** `strip` of a text is empty exactly when the text is blank. */
  lemma TextStripBlank(t: string)
    ensures TextStrip(t) == [] <==> BlankText(t)
  {
    if IsAscii(t) {
      StripSpec(t);
      if SpacesOnly(t) {
        StripPadded(t, [], []);
        assert t + [] + [] == t;
      }
    } else {
      UStripSpec(t, IsWhite2);
      if WhiteOnly(t, IsWhite2) {
        UStripPadded(t, [], [], IsWhite2);
        assert t + [] + [] == t;
      }
      if SpacesOnly(t) {
        SpacesAreWhite(t);
      }
    }
  }

  /** `strip` leaves a text as it is exactly when the text is trimmed. */
  lemma TextStripFixed(t: string)
    ensures TextStrip(t) == t <==> TextTrimmed(t)
  {
    TextStripSpec(t);
    if TextTrimmed(t) {
      if IsAscii(t) {
        StripPadded([], t, []);
      } else {
        UStripPadded([], t, [], IsWhite2);
      }
      assert [] + t + [] == t;
    }
  }

  /** ASCII whitespace around a trimmed text is exactly what `strip` removes, whether the whole is a `str` or a `unicode`. */
  lemma TextStripPadded(pre: string, s: string, post: string)
    requires SpacesOnly(pre) && SpacesOnly(post) && TextTrimmed(s)
    ensures TextStrip(pre + s + post) == s
  {
    var t := pre + s + post;
    if IsAscii(s) {
      assert IsAscii(t) by {
        forall k | 0 <= k < |t| ensures t[k] < '\U{0080}' {
          if k < |pre| { assert t[k] == pre[k]; }
          else if k < |pre| + |s| { assert t[k] == s[k - |pre|]; }
          else { assert t[k] == post[k - |pre| - |s|]; }
        }
      }
      StripPadded(pre, s, post);
    } else {
      assert !IsAscii(t) by {
        var k :| 0 <= k < |s| && !(s[k] < '\U{0080}');
        assert t[|pre| + k] == s[k];
      }
      SpacesAreWhite(pre);
      SpacesAreWhite(post);
      UStripPadded(pre, s, post, IsWhite2);
    }
  }

  // ---------------------------------------------------------------- substrings

  /** Python `s.startswith(p)`. */
  predicate StartsWith(s: string, p: string) {
    |p| <= |s| && s[..|p|] == p
  }

  /** Starting with `a + b` is starting with `a`, then with `b` after it. */
  lemma StartsWithConcat(s: string, a: string, b: string)
    ensures StartsWith(s, a + b) <==> StartsWith(s, a) && StartsWith(s[|a|..], b)
  {
    if StartsWith(s, a) && StartsWith(s[|a|..], b) {
      assert s[..|a + b|] == s[..|a|] + s[|a|..][..|b|];
    }
    if StartsWith(s, a + b) {
      assert s[..|a|] == (a + b)[..|a|];
      assert s[|a|..][..|b|] == (a + b)[|a|..];
    }
  }

  /** Python `s.endswith(p)`. */
  predicate EndsWith(s: string, p: string) {
    |p| <= |s| && s[|s| - |p|..] == p
  }

  predicate OccursAt(s: string, pat: string, i: int) {
    0 <= i && i + |pat| <= |s| && s[i..i + |pat|] == pat
  }

  /** An occurrence of `a + b` is one of `a` followed by one of `b`. */
  lemma OccursAtSplit(s: string, a: string, b: string, i: int)
    requires OccursAt(s, a + b, i)
    ensures OccursAt(s, a, i) && OccursAt(s, b, i + |a|)
  {
    var u := s[i..i + |a| + |b|];
    assert s[i..i + |a|] == u[..|a|];
    assert s[i + |a|..i + |a| + |b|] == u[|a|..];
  }

  /** Python `s.find(pat, from)`: the leftmost occurrence of `pat` at or after `from`. */
  function Find(s: string, pat: string, from: nat): (r: Option<nat>)
    ensures r.Some? ==> from <= r.value && r.value + |pat| <= |s|
    decreases |s| - from
  {
    if from + |pat| > |s| then None
    else if pat <= s[from..] then Some(from)
    else Find(s, pat, from + 1)
  }

  /** The position found is an occurrence at or after `from`, and no occurrence lies between `from` and it. */
  lemma {:induction false} FindSpec(s: string, pat: string, from: nat)
    ensures var r := Find(s, pat, from);
      && (r.Some? ==> from <= r.value && OccursAt(s, pat, r.value))
      && (forall j :: from <= j && (r.None? || j < r.value) ==> !OccursAt(s, pat, j))
    decreases |s| - from
  {
    if from + |pat| <= |s| && !(pat <= s[from..]) {
      FindSpec(s, pat, from + 1);
    }
  }

  /** Python `pat in s`. */
  predicate Contains(s: string, pat: string) {
    Find(s, pat, 0).Some?
  }

  lemma ContainsIff(s: string, pat: string)
    ensures Contains(s, pat) <==> exists i :: OccursAt(s, pat, i)
  {
    FindSpec(s, pat, 0);
    var r := Find(s, pat, 0);
    if r.Some? {
      assert OccursAt(s, pat, r.value);
    }
  }

  /** A string contains itself wherever it is embedded. */
  lemma ContainsInfix(a: string, pat: string, b: string)
    ensures Contains(a + pat + b, pat)
  {
    var s := a + pat + b;
    assert s[|a|..|a| + |pat|] == pat;
    assert OccursAt(s, pat, |a|);
    ContainsIff(s, pat);
  }

  lemma ContainsStart(s: string, pat: string)
    requires StartsWith(s, pat)
    ensures Contains(s, pat)
  {
    assert OccursAt(s, pat, 0);
    ContainsIff(s, pat);
  }

  /**
   * Python `s.replace(pat, rep)` for a non-empty `pat`: every occurrence found
   * scanning left to right, without overlaps, is replaced by `rep`.
   */
  function Replace(s: string, pat: string, rep: string): (r: string)
    requires pat != []
    decreases |s|
  {
    if |s| < |pat| then s
    else if s[..|pat|] == pat then rep + Replace(s[|pat|..], pat, rep)
    else [s[0]] + Replace(s[1..], pat, rep)
  }

  /** `replace` changes nothing in a string without an occurrence. */
  lemma {:induction false} ReplaceAbsent(s: string, pat: string, rep: string)
    requires pat != [] && !Contains(s, pat)
    ensures Replace(s, pat, rep) == s
  {
    ContainsIff(s, pat);
    if |s| >= |pat| {
      assert !OccursAt(s, pat, 0);
      forall i | OccursAt(s[1..], pat, i)
        ensures OccursAt(s, pat, i + 1)
      {
        assert s[1..][i..i + |pat|] == s[i + 1..i + 1 + |pat|];
      }
      ContainsIff(s[1..], pat);
      ReplaceAbsent(s[1..], pat, rep);
    }
  }

  /** `replace` passes over a prefix none of whose characters can start an occurrence. */
  lemma {:induction false} ReplaceAppendFree(a: string, b: string, pat: string, rep: string)
    requires pat != [] && pat[0] !in a
    ensures Replace(a + b, pat, rep) == a + Replace(b, pat, rep)
  {
    var s := a + b;
    if a == [] {
      assert s == b;
    } else if |s| < |pat| {
      assert Replace(b, pat, rep) == b;
    } else {
      assert s[0] == a[0] && s[1..] == a[1..] + b;
      assert s[..|pat|] != pat by {
        assert s[..|pat|][0] == a[0];
      }
      calc {
        Replace(s, pat, rep);
        [a[0]] + Replace(a[1..] + b, pat, rep);
        { ReplaceAppendFree(a[1..], b, pat, rep); }
        [a[0]] + (a[1..] + Replace(b, pat, rep));
        { assert a == [a[0]] + a[1..]; }
        a + Replace(b, pat, rep);
      }
    }
  }

  /** `replace` at an occurrence that starts its input. */
  lemma ReplaceAtStart(pat: string, b: string, rep: string)
    requires pat != []
    ensures Replace(pat + b, pat, rep) == rep + Replace(b, pat, rep)
  {
    var s := pat + b;
    assert s[..|pat|] == pat;
    assert s[|pat|..] == b;
  }

  // ---------------------------------------------------------------- split and join

  /** Python `sep.join(xs)`. */
  function Join(xs: seq<string>, sep: string): string
  {
    if xs == [] then [] else if |xs| == 1 then xs[0] else xs[0] + sep + Join(xs[1..], sep)
  }

  function IndexOfChar(s: string, c: char): (r: nat)
    ensures r <= |s|
    ensures forall k :: 0 <= k < r ==> s[k] != c
    ensures r < |s| ==> s[r] == c
  {
    if s == [] || s[0] == c then 0 else 1 + IndexOfChar(s[1..], c)
  }

  /**
   * Python `s.split(sep)` with an explicit one-character separator: the pieces between
   * the separators, empty ones included, so that joining them back gives `s`.
   */
  function Split(s: string, sep: char): (r: seq<string>)
    ensures |r| >= 1
    ensures forall k :: 0 <= k < |r| ==> sep !in r[k]
    ensures Join(r, [sep]) == s
    decreases |s|
  {
    var i := IndexOfChar(s, sep);
    if i == |s| then
      [s]
    else
      var rest := Split(s[i + 1..], sep);
      assert s == s[..i] + [sep] + s[i + 1..];
      [s[..i]] + rest
  }

  /** Splitting a join of separator-free pieces gives the pieces back. */
  lemma {:induction false} SplitJoin(xs: seq<string>, sep: char)
    requires |xs| >= 1
    requires forall k :: 0 <= k < |xs| ==> sep !in xs[k]
    ensures Split(Join(xs, [sep]), sep) == xs
  {
    var s := Join(xs, [sep]);
    if |xs| == 1 {
      IndexOfCharAbsent(xs[0], sep);
    } else {
      var tail := Join(xs[1..], [sep]);
      assert s == xs[0] + [sep] + tail;
      IndexOfCharAfter(xs[0], sep, tail);
      assert s[..|xs[0]|] == xs[0];
      assert s[|xs[0]| + 1..] == tail;
      SplitJoin(xs[1..], sep);
      assert xs == [xs[0]] + xs[1..];
    }
  }

  lemma IndexOfCharAbsent(s: string, c: char)
    requires c !in s
    ensures IndexOfChar(s, c) == |s|
  {
  }

  lemma IndexOfCharAfter(a: string, c: char, b: string)
    requires c !in a
    ensures IndexOfChar(a + [c] + b, c) == |a|
  {
    var s := a + [c] + b;
    assert s[..|a|] == a;
    assert s[|a|] == c;
  }

  // ---------------------------------------------------------------- runs

  /** The end of the run of whitespace that starts at `i`. */
  function SpacesEnd(s: string, i: nat): (j: nat)
    requires i <= |s|
    ensures i <= j <= |s|
    decreases |s| - i
  {
    if i < |s| && IsSpace(s[i]) then SpacesEnd(s, i + 1) else i
  }

  /** The run is whitespace, and the character after it is not. */
  lemma {:induction false} SpacesEndSpec(s: string, i: nat)
    requires i <= |s|
    ensures var j := SpacesEnd(s, i); SpacesOnly(s[i..j]) && (j == |s| || !IsSpace(s[j]))
    decreases |s| - i
  {
    if i < |s| && IsSpace(s[i]) {
      SpacesEndSpec(s, i + 1);
      var j := SpacesEnd(s, i + 1);
      assert s[i..j] == [s[i]] + s[i + 1..j];
    }
  }

  /** The end of the run of digits that starts at `i`. */
  function DigitsEnd(s: string, i: nat): (j: nat)
    requires i <= |s|
    ensures i <= j <= |s|
    decreases |s| - i
  {
    if i < |s| && IsDigit(s[i]) then DigitsEnd(s, i + 1) else i
  }

  /** The run is digits, and the character after it is not one. */
  lemma {:induction false} DigitsEndSpec(s: string, i: nat)
    requires i <= |s|
    ensures var j := DigitsEnd(s, i); AllDigits(s[i..j]) && (j == |s| || !IsDigit(s[j]))
    decreases |s| - i
  {
    if i < |s| && IsDigit(s[i]) {
      DigitsEndSpec(s, i + 1);
      var j := DigitsEnd(s, i + 1);
      assert s[i..j] == [s[i]] + s[i + 1..j];
    }
  }

  /** A maximal run of whitespace from `i` to `j` is the one `SpacesEnd` finds. */
  lemma {:induction false} SpacesEndAt(s: string, i: nat, j: nat)
    requires i <= j <= |s| && SpacesOnly(s[i..j]) && (j == |s| || !IsSpace(s[j]))
    ensures SpacesEnd(s, i) == j
    decreases j - i
  {
    if i < j {
      assert s[i..j] == [s[i]] + s[i + 1..j];
      SpacesEndAt(s, i + 1, j);
    }
  }

  /** A maximal run of digits from `i` to `j` is the one `DigitsEnd` finds. */
  lemma {:induction false} DigitsEndAt(s: string, i: nat, j: nat)
    requires i <= j <= |s| && AllDigits(s[i..j]) && (j == |s| || !IsDigit(s[j]))
    ensures DigitsEnd(s, i) == j
    decreases j - i
  {
    if i < j {
      assert s[i..j] == [s[i]] + s[i + 1..j];
      DigitsEndAt(s, i + 1, j);
    }
  }

  // ---------------------------------------------------------------- digits

  /** The longest run of digits that starts `s`. */
  function LeadingDigits(s: string): (r: string)
    ensures AllDigits(r) && StartsWith(s, r)
    ensures |r| == |s| || !IsDigit(s[|r|])
  {
    if s != [] && IsDigit(s[0]) then [s[0]] + LeadingDigits(s[1..]) else []
  }

  function FirstDigitIndex(s: string): nat
  {
    if s == [] || IsDigit(s[0]) then 0 else 1 + FirstDigitIndex(s[1..])
  }

  /** The index of the first digit, or the length when there is none. */
  lemma {:induction false} FirstDigitIndexSpec(s: string)
    ensures var r := FirstDigitIndex(s);
      && r <= |s| && (forall k :: 0 <= k < r ==> !IsDigit(s[k])) && (r < |s| ==> IsDigit(s[r]))
  {
    if s != [] && !IsDigit(s[0]) {
      FirstDigitIndexSpec(s[1..]);
      var r := FirstDigitIndex(s);
      forall k | 0 <= k < r ensures !IsDigit(s[k]) {
        if k > 0 {
          assert s[k] == s[1..][k - 1];
        }
      }
    }
  }

  /** `d` is a maximal run of digits in `s` that starts at `i`, with no digit before it. */
  predicate IsFirstDigitRunAt(s: string, i: int, d: string) {
    && 0 <= i <= |s| - |d|
    && d != [] && AllDigits(d)
    && s[i..i + |d|] == d
    && (forall k :: 0 <= k < i ==> !IsDigit(s[k]))
    && (i + |d| == |s| || !IsDigit(s[i + |d|]))
  }

  /**
   * `re.match(r'[^\d]*(\d+)', s).group(1)`: the first run of decimal digits in `s`,
   * or None (the match fails) when `s` holds no digit.
   */
  function FirstDigitRun(s: string): (r: Option<string>)
    ensures r.Some? ==> AllDigits(r.value)
  {
    var i := FirstDigitIndex(s);
    if i >= |s| then None else Some(LeadingDigits(s[i..]))
  }

  /** There is no first run exactly when there is no digit, and otherwise it is the first maximal run. */
  lemma FirstDigitRunSpec(s: string)
    ensures FirstDigitRun(s).None? <==> forall k :: 0 <= k < |s| ==> !IsDigit(s[k])
    ensures FirstDigitRun(s).Some? ==> exists i :: IsFirstDigitRunAt(s, i, FirstDigitRun(s).value)
  {
    FirstDigitIndexSpec(s);
    var i := FirstDigitIndex(s);
    if i < |s| {
      var d := LeadingDigits(s[i..]);
      assert d == s[i..][..|d|];
      assert s[i..i + |d|] == d;
      assert IsFirstDigitRunAt(s, i, d);
    }
  }

  /** At most one run of digits can be the first one. */
  lemma FirstDigitRunUnique(s: string, i: int, d: string, j: int, e: string)
    requires IsFirstDigitRunAt(s, i, d) && IsFirstDigitRunAt(s, j, e)
    ensures i == j && d == e
  {
    assert s[i] == s[i..i + |d|][0];
    assert s[j] == s[j..j + |e|][0];
    MaximalRunIsLeading(s[i..], d);
    MaximalRunIsLeading(s[j..], e);
  }

  lemma {:induction false} MaximalRunIsLeading(t: string, d: string)
    requires AllDigits(d) && StartsWith(t, d) && (|d| == |t| || !IsDigit(t[|d|]))
    ensures LeadingDigits(t) == d
  {
    if d != [] {
      assert t[1..][..|d| - 1] == d[1..];
      MaximalRunIsLeading(t[1..], d[1..]);
      assert d == [d[0]] + d[1..];
    }
  }

  function DigitValue(c: char): nat
    requires IsDigit(c)
  {
    c as int - '0' as int
  }

  function DigitChar(n: nat): char
    requires n < 10
  {
    ('0' as int + n) as char
  }

  /** Python `int(d)` for a non-empty string of decimal digits. */
  function DecimalValue(d: string): nat
    requires AllDigits(d)
  {
    if d == [] then 0 else 10 * DecimalValue(d[..|d| - 1]) + DigitValue(d[|d| - 1])
  }

  /** Python `str(n)` for a natural number: decimal digits without a leading zero. */
  function DecimalString(n: nat): (d: string)
    ensures d != [] && AllDigits(d)
    ensures |d| > 1 ==> d[0] != '0'
  {
    if n < 10 then [DigitChar(n)] else DecimalString(n / 10) + [DigitChar(n % 10)]
  }

  /** Canonical digit strings: no leading zero, except "0" itself. */
  predicate Canonical(d: string) {
    d != [] && AllDigits(d) && (|d| > 1 ==> d[0] != '0')
  }

  lemma {:induction false} DecimalRoundTrip(n: nat)
    ensures DecimalValue(DecimalString(n)) == n
  {
    if n >= 10 {
      var d := DecimalString(n);
      DecimalRoundTrip(n / 10);
      assert d[..|d| - 1] == DecimalString(n / 10);
    }
  }

  lemma {:induction false} DecimalValuePositive(d: string)
    requires d != [] && AllDigits(d) && d[0] != '0'
    ensures DecimalValue(d) >= 1
  {
    if |d| > 1 {
      DecimalValuePositive(d[..|d| - 1]);
    }
  }

  /** `str(int(d)) == d` exactly for canonical digit strings. */
  lemma {:induction false} DecimalCanonical(d: string)
    requires Canonical(d)
    ensures DecimalString(DecimalValue(d)) == d
  {
    if |d| > 1 {
      var p := d[..|d| - 1];
      DecimalValuePositive(p);
      DecimalCanonical(p);
      assert d == p + [d[|d| - 1]];
    }
  }

  /** Leading zeros do not change the value `int()` reads. */
  lemma {:induction false} DecimalLeadingZeros(z: string, d: string)
    requires forall k :: 0 <= k < |z| ==> z[k] == '0'
    requires AllDigits(d)
    ensures AllDigits(z + d) && DecimalValue(z + d) == DecimalValue(d)
  {
    if d == [] {
      DecimalZeros(z);
      assert z + d == z;
    } else {
      assert (z + d)[..|z + d| - 1] == z + d[..|d| - 1];
      DecimalLeadingZeros(z, d[..|d| - 1]);
    }
  }

  lemma {:induction false} DecimalZeros(z: string)
    requires forall k :: 0 <= k < |z| ==> z[k] == '0'
    ensures AllDigits(z) && DecimalValue(z) == 0
  {
    if z != [] {
      DecimalZeros(z[..|z| - 1]);
    }
  }

  // ---------------------------------------------------------------- order

  /** Python's `<=` on `str`: lexicographic order of code points, a prefix before its extensions. */
  predicate LexLe(a: string, b: string)
    decreases |a|
  {
    a == [] || (b != [] && (a[0] < b[0] || (a[0] == b[0] && LexLe(a[1..], b[1..]))))
  }

  lemma {:induction false} LexLeReflexive(a: string)
    ensures LexLe(a, a)
  {
    if a != [] {
      LexLeReflexive(a[1..]);
    }
  }

  lemma {:induction false} LexLeTotal(a: string, b: string)
    ensures LexLe(a, b) || LexLe(b, a)
  {
    if a != [] && b != [] && a[0] == b[0] {
      LexLeTotal(a[1..], b[1..]);
    }
  }

  lemma {:induction false} LexLeTransitive(a: string, b: string, c: string)
    requires LexLe(a, b) && LexLe(b, c)
    ensures LexLe(a, c)
  {
    if a != [] && b != [] && c != [] && a[0] == b[0] && b[0] == c[0] {
      LexLeTransitive(a[1..], b[1..], c[1..]);
    }
  }

  lemma {:induction false} LexLeAntisymmetric(a: string, b: string)
    requires LexLe(a, b) && LexLe(b, a)
    ensures a == b
  {
    if a != [] && b != [] {
      LexLeAntisymmetric(a[1..], b[1..]);
      assert a == [a[0]] + a[1..];
      assert b == [b[0]] + b[1..];
    }
  }
}
