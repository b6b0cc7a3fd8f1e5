/** The JavaScript string built-ins the application relies on, stated over `seq<char>`:
    `trim`, `toLowerCase`, `startsWith`/`endsWith`, `join`, the regular-expression
    replacements `/\W+/g -> '_'`, `/"/g -> '""'`, `/_/g -> ' '`, and `Number.prototype.toString`
    for integers. */
module JsText {
  import opened Seqs

  // ---------------------------------------------------------------------------------------
  // trim
  // ---------------------------------------------------------------------------------------

  /** The code points `String.prototype.trim` removes: ECMAScript WhiteSpace (tab, vertical
      tab, form feed, space, no-break space, byte-order mark and every Unicode space
      separator) and LineTerminator (LF, CR, LS, PS). */
  predicate IsWhitespace(c: char) {
    || c == '\t' || c == '\n' || c == '\U{B}' || c == '\U{C}' || c == '\r' || c == ' '
    || c == '\U{A0}' || c == '\U{1680}' || ('\U{2000}' <= c <= '\U{200A}')
    || c == '\U{2028}' || c == '\U{2029}' || c == '\U{202F}' || c == '\U{205F}'
    || c == '\U{3000}' || c == '\U{FEFF}'
  }

  predicate AllWhitespace(s: string) {
    forall i :: 0 <= i < |s| ==> IsWhitespace(s[i])
  }

  /** The number of whitespace characters at the start of `s`. */
  function LeadingWhitespace(s: string): (n: nat)
    ensures n <= |s|
    ensures forall i :: 0 <= i < n ==> IsWhitespace(s[i])
    ensures n < |s| ==> !IsWhitespace(s[n])
  {
    if s != [] && IsWhitespace(s[0]) then 1 + LeadingWhitespace(s[1..]) else 0
  }

  /** The length of `s` without the whitespace at its end. */
  function TrailingStart(s: string): (n: nat)
    ensures n <= |s|
    ensures forall i :: n <= i < |s| ==> IsWhitespace(s[i])
    ensures n > 0 ==> !IsWhitespace(s[n - 1])
  {
    if s != [] && IsWhitespace(s[|s| - 1]) then TrailingStart(s[..|s| - 1]) else |s|
  }

  /** `trimStart`: the result is what is left after the longest all-whitespace prefix. */
  function TrimStart(s: string): (r: string)
    ensures |r| <= |s| && r == s[|s| - |r|..]
    ensures AllWhitespace(s[..|s| - |r|])
    ensures r == [] || !IsWhitespace(r[0])
  {
    s[LeadingWhitespace(s)..]
  }

  /** `trimEnd`: the result is what is left before the longest all-whitespace suffix. */
  function TrimEnd(s: string): (r: string)
    ensures |r| <= |s| && r == s[..|r|]
    ensures AllWhitespace(s[|r|..])
    ensures r == [] || !IsWhitespace(r[|r| - 1])
  {
    s[..TrailingStart(s)]
  }

  /** `String.prototype.trim`: neither end of the result is whitespace. */
  function Trim(s: string): (r: string)
    ensures |r| <= |s|
    ensures LeadingWhitespace(s) == |s| ==> r == []
    ensures LeadingWhitespace(s) < |s| ==> r == s[LeadingWhitespace(s)..TrailingStart(s)]
    ensures r == [] || (!IsWhitespace(r[0]) && !IsWhitespace(r[|r| - 1]))
  {
    TrimEnd(TrimStart(s))
  }

  /** A string trims to empty exactly when every character of it is whitespace. */
  lemma TrimEmptyIff(s: string)
    ensures Trim(s) == [] <==> AllWhitespace(s)
  {
    var t := TrimStart(s);
    if Trim(s) == [] {
      assert AllWhitespace(t[0..]);
      assert t == [];
      assert s[..|s|] == s;
    }
  }

  /** The whitespace count is the only `n` with whitespace before it and none at it. */
  lemma {:induction false} LeadingWhitespaceUnique(s: string, n: nat)
    requires n <= |s|
    requires forall i :: 0 <= i < n ==> IsWhitespace(s[i])
    requires n < |s| ==> !IsWhitespace(s[n])
    ensures LeadingWhitespace(s) == n
  {
    if n > 0 {
      var t := s[1..];
      forall i | 0 <= i < n - 1
        ensures IsWhitespace(t[i])
      {
        assert t[i] == s[i + 1];
      }
      if n < |s| {
        assert t[n - 1] == s[n];
      }
      LeadingWhitespaceUnique(t, n - 1);
    }
  }

  lemma TrimStartAppend(s: string, q: string)
    ensures TrimStart(s + q) == if AllWhitespace(s) then TrimStart(q) else TrimStart(s) + q
  {
    if AllWhitespace(s) {
      TrimStartAfterWhitespace(s, q);
    } else {
      TrimStartAfterText(s, q);
    }
  }

  lemma TrimStartAfterWhitespace(s: string, q: string)
    requires AllWhitespace(s)
    ensures TrimStart(s + q) == TrimStart(q)
  {
    var t := s + q;
    var m := LeadingWhitespace(q);
    forall i | 0 <= i < |s| + m
      ensures IsWhitespace(t[i])
    {
      if i < |s| {
        assert t[i] == s[i];
      } else {
        assert t[i] == q[i - |s|];
      }
    }
    if |s| + m < |t| {
      assert t[|s| + m] == q[m];
    }
    LeadingWhitespaceUnique(t, |s| + m);
    assert t[|s| + m..] == q[m..];
  }

  lemma TrimStartAfterText(s: string, q: string)
    requires !AllWhitespace(s)
    ensures TrimStart(s + q) == TrimStart(s) + q
  {
    var t := s + q;
    var n := LeadingWhitespace(s);
    var j :| 0 <= j < |s| && !IsWhitespace(s[j]);
    assert n <= j;
    forall i | 0 <= i < n
      ensures IsWhitespace(t[i])
    {
      assert t[i] == s[i];
    }
    assert t[n] == s[n];
    LeadingWhitespaceUnique(t, n);
    assert t[n..] == s[n..] + q;
  }

  lemma {:induction false} TrimEndAppend(s: string, q: string)
    requires AllWhitespace(q)
    ensures TrimEnd(s + q) == TrimEnd(s)
    decreases |q|
  {
    if q != [] {
      var q' := q[..|q| - 1];
      assert (s + q)[..|s + q| - 1] == s + q';
      TrimEndAppend(s, q');
    } else {
      assert s + q == s;
    }
  }

  /** Whitespace added at either end does not change what `trim` returns. */
  lemma TrimPadding(p: string, s: string, q: string)
    requires AllWhitespace(p) && AllWhitespace(q)
    ensures Trim(p + s + q) == Trim(s)
  {
    assert p + s + q == p + (s + q);
    TrimStartAppend(p, s + q);
    TrimStartAppend(s, q);
    if AllWhitespace(s) {
      TrimEmptyIff(s);
      assert AllWhitespace(s + q);
      TrimEmptyIff(s + q);
    } else {
      TrimEndAppend(TrimStart(s), q);
    }
  }

  // ---------------------------------------------------------------------------------------
  // toLowerCase, startsWith, endsWith
  // ---------------------------------------------------------------------------------------

  predicate IsAsciiUpper(c: char) { 'A' <= c <= 'Z' }

  function LowerChar(c: char): char {
    if IsAsciiUpper(c) then (c as int + 32) as char else c
  }

  /** `toLowerCase`, for the ASCII letters: each upper-case letter is replaced by its
      lower-case letter, 32 code points on, and every other character is kept. */
  function ToLower(s: string): (r: string)
    ensures |r| == |s|
    ensures forall i :: 0 <= i < |r| ==> !IsAsciiUpper(r[i])
    ensures forall i :: 0 <= i < |s| ==>
      if IsAsciiUpper(s[i]) then r[i] as int == s[i] as int + 32 else r[i] == s[i]
  {
    seq(|s|, i requires 0 <= i < |s| => LowerChar(s[i]))
  }

  /** Lower-casing twice is lower-casing once. */
  lemma ToLowerIdempotent(s: string)
    ensures ToLower(ToLower(s)) == ToLower(s)
  {
  }

  predicate StartsWith(s: string, prefix: string) {
    prefix <= s
  }

  predicate EndsWith(s: string, suffix: string) {
    |suffix| <= |s| && s[|s| - |suffix|..] == suffix
  }

  // ---------------------------------------------------------------------------------------
  // join
  // ---------------------------------------------------------------------------------------

  /** `Array.prototype.join(sep)` on an array of strings. */
  function Join(parts: seq<string>, sep: string): string {
    if |parts| == 0 then ""
    else if |parts| == 1 then parts[0]
    else parts[0] + sep + Join(parts[1..], sep)
  }

  /** A join of two or more parts: the first part, the separator, then the join of the rest. */
  lemma JoinUnfold(parts: seq<string>, sep: string)
    requires |parts| >= 2
    ensures Join(parts, sep) == parts[0] + (sep + Join(parts[1..], sep))
  {
    ConcatAssoc(parts[0], sep, Join(parts[1..], sep));
  }


  // ---------------------------------------------------------------------------------------
  // replace(/\W+/g, '_')
  // ---------------------------------------------------------------------------------------

  /** A regular-expression word character `\w` (no `u` flag): `[A-Za-z0-9_]`. */
  predicate IsWordChar(c: char) {
    'A' <= c <= 'Z' || 'a' <= c <= 'z' || '0' <= c <= '9' || c == '_'
  }

  predicate AllWordChars(s: string) {
    forall i :: 0 <= i < |s| ==> IsWordChar(s[i])
  }

  predicate NoWordChars(s: string) {
    forall i :: 0 <= i < |s| ==> !IsWordChar(s[i])
  }

  /** The length of the longest prefix of non-word characters. */
  function NonWordPrefix(s: string): (n: nat)
    ensures n <= |s|
    ensures n < |s| ==> IsWordChar(s[n])
    ensures forall i :: 0 <= i < n ==> !IsWordChar(s[i])
  {
    if s != [] && !IsWordChar(s[0]) then 1 + NonWordPrefix(s[1..]) else 0
  }

  /** Drops the longest prefix of non-word characters. */
  function DropNonWord(s: string): string {
    s[NonWordPrefix(s)..]
  }

  /** `s.replace(/\W+/g, '_')`: every maximal run of non-word characters becomes one `_`.
      The result holds word characters only, and is empty exactly when `s` is. */
  function ReplaceNonWordRuns(s: string): (r: string)
    ensures AllWordChars(r)
    ensures |r| <= |s|
    ensures r == [] <==> s == []
    decreases |s|
  {
    if s == [] then []
    else if IsWordChar(s[0]) then [s[0]] + ReplaceNonWordRuns(s[1..])
    else "_" + ReplaceNonWordRuns(DropNonWord(s[1..]))
  }

  /** A string of word characters only is left as it is. */
  lemma {:induction false} ReplaceNonWordRunsKeepsWords(s: string)
    requires AllWordChars(s)
    ensures ReplaceNonWordRuns(s) == s
  {
    if s != [] {
      ReplaceNonWordRunsKeepsWords(s[1..]);
      assert [s[0]] + s[1..] == s;
    }
  }

  /** Sanitising twice is sanitising once. */
  lemma ReplaceNonWordRunsIdempotent(s: string)
    ensures ReplaceNonWordRuns(ReplaceNonWordRuns(s)) == ReplaceNonWordRuns(s)
  {
    ReplaceNonWordRunsKeepsWords(ReplaceNonWordRuns(s));
  }

  lemma UnfoldWord(c: char, rest: string)
    requires IsWordChar(c)
    ensures ReplaceNonWordRuns([c] + rest) == [c] + ReplaceNonWordRuns(rest)
  {
    assert ([c] + rest)[1..] == rest;
  }

  lemma UnfoldNonWord(c: char, rest: string)
    requires !IsWordChar(c)
    ensures ReplaceNonWordRuns([c] + rest) == "_" + ReplaceNonWordRuns(DropNonWord(rest))
  {
    assert ([c] + rest)[1..] == rest;
  }

  lemma {:induction false} DropNonWordAppend(x: string, y: string)
    requires x != [] && IsWordChar(x[|x| - 1])
    ensures DropNonWord(x + y) == DropNonWord(x) + y
    ensures DropNonWord(x) != [] && DropNonWord(x)[|DropNonWord(x)| - 1] == x[|x| - 1]
  {
    if !IsWordChar(x[0]) {
      assert x[1..][|x| - 2] == x[|x| - 1];
      assert (x + y)[1..] == x[1..] + y;
      DropNonWordAppend(x[1..], y);
    } else {
      assert (x + y)[0] == x[0];
    }
  }

  lemma {:induction false} DropNonWordRun(run: string, v: string)
    requires NoWordChars(run)
    requires v == [] || IsWordChar(v[0])
    ensures DropNonWord(run + v) == v
  {
    if run != [] {
      assert (run + v)[1..] == run[1..] + v;
      DropNonWordRun(run[1..], v);
    } else {
      assert run + v == v;
    }
  }

  /** A maximal run of non-word characters, between a word character (or the start) and a
      word character (or the end), turns into exactly one `_`, whatever its length. */
  lemma {:induction false} ReplaceNonWordRunsRun(u: string, run: string, v: string)
    requires u == [] || IsWordChar(u[|u| - 1])
    requires run != [] && NoWordChars(run)
    requires v == [] || IsWordChar(v[0])
    ensures ReplaceNonWordRuns(u + run + v) == ReplaceNonWordRuns(u) + "_" + ReplaceNonWordRuns(v)
    decreases |u|, 1
  {
    if u == [] {
      assert u + run + v == run + v;
      ConsConcat(run, v);
      UnfoldNonWord(run[0], run[1..] + v);
      DropNonWordRun(run[1..], v);
    } else if IsWordChar(u[0]) {
      RunAfterWord(u, run, v);
    } else {
      RunAfterNonWord(u, run, v);
    }
  }

  lemma {:induction false} RunAfterWord(u: string, run: string, v: string)
    requires u != [] && IsWordChar(u[0]) && IsWordChar(u[|u| - 1])
    requires run != [] && NoWordChars(run)
    requires v == [] || IsWordChar(v[0])
    ensures ReplaceNonWordRuns(u + run + v) == ReplaceNonWordRuns(u) + "_" + ReplaceNonWordRuns(v)
    decreases |u|, 0
  {
    var c, w := u[0], u[1..];
    var rest := w + run + v;
    var a, b := ReplaceNonWordRuns(w), ReplaceNonWordRuns(v);
    calc {
      ReplaceNonWordRuns(u + run + v);
    == { ConsAppend(u, run, v); ConcatAssoc(w, run, v); UnfoldWord(c, rest); }
      [c] + ReplaceNonWordRuns(rest);
    == { ReplaceNonWordRunsRun(w, run, v); }
      [c] + (a + "_" + b);
    == { Regroup([c], a, "_", b); }
      ([c] + a) + "_" + b;
    == { ConsTail(u); UnfoldWord(c, w); }
      ReplaceNonWordRuns(u) + "_" + b;
    }
  }

  lemma {:induction false} RunAfterNonWord(u: string, run: string, v: string)
    requires u != [] && !IsWordChar(u[0]) && IsWordChar(u[|u| - 1])
    requires run != [] && NoWordChars(run)
    requires v == [] || IsWordChar(v[0])
    ensures ReplaceNonWordRuns(u + run + v) == ReplaceNonWordRuns(u) + "_" + ReplaceNonWordRuns(v)
    decreases |u|, 0
  {
    var c, t := u[0], u[1..];
    var rest := t + (run + v);
    var u' := DropNonWord(t);
    var a, b := ReplaceNonWordRuns(u'), ReplaceNonWordRuns(v);
    calc {
      ReplaceNonWordRuns(u + run + v);
    == { ConsAppend(u, run, v); UnfoldNonWord(c, rest); }
      "_" + ReplaceNonWordRuns(DropNonWord(rest));
    == { assert t[|t| - 1] == u[|u| - 1]; DropNonWordAppend(t, run + v); ConcatAssoc(u', run, v); }
      "_" + ReplaceNonWordRuns(u' + run + v);
    == { assert t[|t| - 1] == u[|u| - 1]; DropNonWordAppend(t, run + v); ReplaceNonWordRunsRun(u', run, v); }
      "_" + (a + "_" + b);
    == { Regroup("_", a, "_", b); }
      ("_" + a) + "_" + b;
    == { ConsTail(u); UnfoldNonWord(c, t); }
      ReplaceNonWordRuns(u) + "_" + b;
    }
  }

  // ---------------------------------------------------------------------------------------
  // replace(/"/g, '""') and replace(/_/g, ' ')
  // ---------------------------------------------------------------------------------------

  /** `s.replace(/"/g, '""')`: every double quote doubled, every other character kept. */
  function DoubleQuotes(s: string): (r: string)
    ensures |r| >= |s|
    ensures (forall i :: 0 <= i < |s| ==> s[i] != '"') ==> r == s
  {
    if s == [] then []
    else (if s[0] == '"' then "\"\"" else [s[0]]) + DoubleQuotes(s[1..])
  }

  /** `s.replace(/_/g, ' ')`. */
  function UnderscoresToSpaces(s: string): (r: string)
    ensures |r| == |s|
    ensures forall i :: 0 <= i < |r| ==> r[i] != '_' && (s[i] != '_' ==> r[i] == s[i])
    ensures forall i :: 0 <= i < |s| && s[i] == '_' ==> r[i] == ' '
  {
    seq(|s|, i requires 0 <= i < |s| => if s[i] == '_' then ' ' else s[i])
  }

  // ---------------------------------------------------------------------------------------
  // Number.prototype.toString on integers
  // ---------------------------------------------------------------------------------------

  predicate IsDigit(c: char) { '0' <= c <= '9' }

  predicate AllDigits(s: string) {
    forall i :: 0 <= i < |s| ==> IsDigit(s[i])
  }

  /** A digit string in canonical form: not empty, and no leading zero unless it is "0". */
  predicate Canonical(s: string) {
    s != [] && AllDigits(s) && (|s| > 1 ==> s[0] != '0')
  }

  /** The decimal digits of `n`, most significant first, with no leading zero. */
  function NatToString(n: nat): (r: string)
    ensures Canonical(r)
    ensures (r[0] == '0') == (n == 0)
  {
    var last := "0123456789"[n % 10];
    if n < 10 then [last] else NatToString(n / 10) + [last]
  }

  /** The value of a string of decimal digits. */
  function DigitsValue(s: string): nat
    requires AllDigits(s)
  {
    if s == [] then 0
    else
      assert IsDigit(s[|s| - 1]);
      DigitsValue(s[..|s| - 1]) * 10 + (s[|s| - 1] as int - '0' as int)
  }

  /** Reading the decimal rendering back gives the number. */
  lemma {:induction false} NatToStringRoundTrip(n: nat)
    ensures DigitsValue(NatToString(n)) == n
  {
    var s := NatToString(n);
    if n >= 10 {
      NatToStringRoundTrip(n / 10);
      assert s[..|s| - 1] == NatToString(n / 10);
    }
  }

  /** A canonical digit string is the rendering of its own value: no other digit string
      renders a number. */
  lemma {:induction false} CanonicalIsNatToString(s: string)
    requires Canonical(s)
    ensures s == NatToString(DigitsValue(s))
  {
    var c := s[|s| - 1];
    var p := s[..|s| - 1];
    assert IsDigit(c);
    var n := DigitsValue(s);
    if |s| == 1 {
      DigitChar(c);
      assert s == [c];
    } else {
      assert p[0] == s[0];
      CanonicalIsNatToString(p);
      CanonicalPositive(p);
      FrontLast(s);
      NatToStringAppendDigit(n, DigitsValue(p), c);
    }
  }

  /** Writing one more digit after the rendering of a positive number. */
  lemma NatToStringAppendDigit(n: nat, v: nat, c: char)
    requires v > 0 && IsDigit(c) && n == v * 10 + (c as int - '0' as int)
    ensures NatToString(n) == NatToString(v) + [c]
  {
    assert n / 10 == v && n % 10 == c as int - '0' as int;
    DigitChar(c);
  }

  lemma DigitChar(c: char)
    requires IsDigit(c)
    ensures "0123456789"[c as int - '0' as int] == c
  {
  }

  lemma {:induction false} CanonicalPositive(s: string)
    requires Canonical(s) && s[0] != '0'
    ensures DigitsValue(s) > 0
  {
    if |s| > 1 {
      var p := s[..|s| - 1];
      assert p[0] == s[0];
      CanonicalPositive(p);
    }
  }

  /** `toString` of an integer-valued number: an optional minus sign, then the canonical
      decimal digits of the magnitude (so no "-0" and no leading zero); it never holds a
      double quote. */
  function IntToString(n: int): (r: string)
    ensures r != [] && (r[0] == '-') == (n < 0)
    ensures var digits := if n < 0 then r[1..] else r;
      Canonical(digits) && (digits[0] == '0') == (n == 0) && DigitsValue(digits) == if n < 0 then -n else n
    ensures forall i :: 0 <= i < |r| ==> r[i] != '"'
  {
    var digits := NatToString(if n < 0 then -n else n);
    NatToStringRoundTrip(if n < 0 then -n else n);
    if n < 0 then
      NegativeRendering(digits);
      "-" + digits
    else
      digits
  }

  lemma NegativeRendering(digits: string)
    requires AllDigits(digits)
    ensures ("-" + digits)[0] == '-' && ("-" + digits)[1..] == digits
    ensures forall i :: 0 <= i < |"-" + digits| ==> ("-" + digits)[i] != '"'
  {
    var r := "-" + digits;
    forall i | 0 <= i < |r| ensures r[i] != '"' {
      if i > 0 {
        assert r[i] == digits[i - 1];
      }
    }
  }
}
