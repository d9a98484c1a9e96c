/// The pieces of Ruby and Rails string behaviour that the notifier leans on:
/// literal `gsub` and `sub`, `index`, `Array#join`, `String#present?` and
/// `String#to_i`, each written out so that the rest of the model can state
/// exactly what the notifier does with them.
module RubyText {

  /** Ruby's `nil` (None) or a value (Some). */
  datatype Option<+T> = None | Some(value: T) {
    /** `x.to_s`-style defaulting: the value, or `default` for nil. */
    function GetOr(default: T): T {
      match this
      case Some(v) => v
      case None => default
    }
  }

  predicate StartsWith(s: string, prefix: string) {
    |prefix| <= |s| && s[..|prefix|] == prefix
  }

  // ---------------------------------------------------------------------------
  // String#gsub with a literal pattern

  /** `s.gsub(pat, rep)` for a literal, non-empty pattern: the leftmost
      occurrence is replaced and scanning resumes after it, so replaced
      occurrences never overlap and replacement text is never rescanned. */
  function ReplaceAll(s: string, pat: string, rep: string): string
    requires pat != []
    decreases |s|
  {
    if |s| < |pat| then s
    else if s[..|pat|] == pat then rep + ReplaceAll(s[|pat|..], pat, rep)
    else [s[0]] + ReplaceAll(s[1..], pat, rep)
  }

  /** A prefix in which no occurrence of `pat` starts is copied unchanged. */
  lemma {:induction false} ReplaceAllSkip(a: string, b: string, pat: string, rep: string)
    requires pat != []
    requires forall i :: 0 <= i < |a| ==> !StartsWith((a + b)[i..], pat)
    ensures ReplaceAll(a + b, pat, rep) == a + ReplaceAll(b, pat, rep)
    decreases |a|
  {
    if a == [] {
      assert a + b == b;
    } else {
      var s := a + b;
      assert s[0..] == s && s[0] == a[0];
      if |s| < |pat| {
        assert |b| < |pat| && ReplaceAll(b, pat, rep) == b;
      } else {
        assert !StartsWith(s[0..], pat);
        assert ReplaceAll(s, pat, rep) == [s[0]] + ReplaceAll(s[1..], pat, rep);
        assert s[1..] == a[1..] + b;
        forall i | 0 <= i < |a[1..]|
          ensures !StartsWith((a[1..] + b)[i..], pat)
        {
          assert (a[1..] + b)[i..] == s[i + 1..];
        }
        ReplaceAllSkip(a[1..], b, pat, rep);
        assert [a[0]] + a[1..] == a;
        assert [a[0]] + (a[1..] + ReplaceAll(b, pat, rep)) == a + ReplaceAll(b, pat, rep);
      }
    }
  }

  /** An occurrence at the front is replaced and scanning resumes after it. */
  lemma ReplaceAllHit(b: string, pat: string, rep: string)
    requires pat != []
    ensures ReplaceAll(pat + b, pat, rep) == rep + ReplaceAll(b, pat, rep)
  {
    assert (pat + b)[..|pat|] == pat;
    assert (pat + b)[|pat|..] == b;
  }

  /** Replacing a pattern by itself changes nothing. */
  lemma {:induction false} ReplaceAllSelf(s: string, pat: string)
    requires pat != []
    ensures ReplaceAll(s, pat, pat) == s
    decreases |s|
  {
    if |s| >= |pat| {
      if s[..|pat|] == pat {
        ReplaceAllSelf(s[|pat|..], pat);
        assert s == s[..|pat|] + s[|pat|..];
      } else {
        ReplaceAllSelf(s[1..], pat);
        assert s == [s[0]] + s[1..];
      }
    }
  }

  /** With a one-character pattern, gsub works character by character. */
  lemma {:induction false} ReplaceCharConcat(a: string, b: string, c: char, rep: string)
    ensures ReplaceAll(a + b, [c], rep) == ReplaceAll(a, [c], rep) + ReplaceAll(b, [c], rep)
    decreases |a|
  {
    if a == [] {
      assert a + b == b;
    } else {
      var s := a + b;
      assert s[..1] == [a[0]] && a[..1] == [a[0]];
      assert s[1..] == a[1..] + b;
      ReplaceCharConcat(a[1..], b, c, rep);
      if a[0] == c {
        assert ReplaceAll(s, [c], rep) == rep + ReplaceAll(s[1..], [c], rep);
        assert ReplaceAll(a, [c], rep) == rep + ReplaceAll(a[1..], [c], rep);
      } else {
        assert ReplaceAll(s, [c], rep) == [a[0]] + ReplaceAll(s[1..], [c], rep);
        assert ReplaceAll(a, [c], rep) == [a[0]] + ReplaceAll(a[1..], [c], rep);
      }
    }
  }

  /** A one-character gsub leaves text without that character unchanged. */
  lemma {:induction false} ReplaceCharAbsent(s: string, c: char, rep: string)
    requires c !in s
    ensures ReplaceAll(s, [c], rep) == s
    decreases |s|
  {
    if s != [] {
      assert s[..1] == [s[0]] && s[0] != c;
      assert s[1..] == s[1..] && forall x :: x in s[1..] ==> x in s;
      ReplaceCharAbsent(s[1..], c, rep);
      assert s == [s[0]] + s[1..];
    }
  }

  // ---------------------------------------------------------------------------
  // String#index and String#sub with a literal pattern

  /** `s.index(pat, i)`: the leftmost position at or after `i` where `pat` occurs. */
  function IndexFrom(s: string, pat: string, i: nat): (r: Option<nat>)
    decreases |s| - i
    ensures r.Some? ==> i <= r.value <= |s| && StartsWith(s[r.value..], pat)
    ensures forall j :: i <= j <= |s| && (r.None? || j < r.value) ==> !StartsWith(s[j..], pat)
  {
    if i + |pat| > |s| then None
    else if StartsWith(s[i..], pat) then Some(i)
    else IndexFrom(s, pat, i + 1)
  }

  /** `s.sub(pat, rep)`: only the leftmost occurrence is replaced. */
  function SubFirst(s: string, pat: string, rep: string): string {
    match IndexFrom(s, pat, 0)
    case None => s
    case Some(i) => s[..i] + rep + s[i + |pat|..]
  }

  /** `sub` cuts out exactly the first occurrence: everything before it and
      everything after it are kept. */
  lemma SubFirstAt(pre: string, pat: string, post: string, rep: string)
    requires forall j :: 0 <= j < |pre| ==> !StartsWith((pre + pat + post)[j..], pat)
    ensures SubFirst(pre + pat + post, pat, rep) == pre + rep + post
  {
    var s := pre + pat + post;
    assert s[|pre|..][..|pat|] == pat;
    var r := IndexFrom(s, pat, 0);
    assert r == Some(|pre|);
    assert s[..|pre|] == pre && s[|pre| + |pat|..] == post;
  }

  // ---------------------------------------------------------------------------
  // Array#join

  /** `xs.join(sep)`. */
  function Join(xs: seq<string>, sep: string): string {
    if |xs| == 0 then ""
    else if |xs| == 1 then xs[0]
    else xs[0] + sep + Join(xs[1..], sep)
  }

  // ---------------------------------------------------------------------------
  // Rails' Object#present? on strings and nil

  /** Characters of Ruby's `[[:space:]]` class on a Unicode string, which is
      what Rails' `String#blank?` matches. */
  predicate IsBlankChar(c: char) {
    ('\t' <= c <= '\r') || c == ' ' || c == '\U{0085}' || c == '\U{00A0}' || c == '\U{1680}'
    || ('\U{2000}' <= c <= '\U{200A}') || c == '\U{2028}' || c == '\U{2029}'
    || c == '\U{202F}' || c == '\U{205F}' || c == '\U{3000}'
  }

  predicate Blank(s: string) {
    forall i :: 0 <= i < |s| ==> IsBlankChar(s[i])
  }

  /** `v.present?`: not nil, and not empty or whitespace only. */
  predicate Present(v: Option<string>) {
    v.Some? && !Blank(v.value)
  }

  // ---------------------------------------------------------------------------
  // String#to_i

  predicate IsDigit(c: char) { '0' <= c <= '9' }

  /** The whitespace `to_i` skips before the number (C's isspace). */
  predicate IsAsciiSpace(c: char) { c == ' ' || ('\t' <= c <= '\r') }

  function DigitValue(c: char): nat
    requires IsDigit(c)
  {
    (c as int - '0' as int) as nat
  }

  function SkipSpaces(s: string): string
    decreases |s|
  {
    if |s| > 0 && IsAsciiSpace(s[0]) then SkipSpaces(s[1..]) else s
  }

  /** Digits of the numeral that heads `s`: a run of digits in which a single
      underscore may separate two digits (`"1_000"`); anything else ends it. */
  function LeadingDigits(s: string): seq<nat>
    decreases |s|
  {
    if |s| == 0 || !IsDigit(s[0]) then []
    else if |s| >= 3 && s[1] == '_' && IsDigit(s[2]) then [DigitValue(s[0])] + LeadingDigits(s[2..])
    else [DigitValue(s[0])] + LeadingDigits(s[1..])
  }

  /** The value of a base-ten digit sequence, most significant digit first. */
  function DigitsValue(ds: seq<nat>): nat
    decreases |ds|
  {
    if ds == [] then 0 else DigitsValue(ds[..|ds| - 1]) * 10 + ds[|ds| - 1]
  }

  /** The optional base-ten prefix `0d` (or `0D`) that Ruby's integer parser
      skips after the sign. */
  function DropDecimalPrefix(t: string): string {
    if |t| >= 2 && t[0] == '0' && (t[1] == 'd' || t[1] == 'D') then t[2..] else t
  }

  /** The value of the numeral after the sign. */
  function Magnitude(t: string): nat {
    DigitsValue(LeadingDigits(DropDecimalPrefix(t)))
  }

  /** `s.to_i`: leading whitespace, an optional sign, an optional `0d`
      prefix, then the leading numeral; 0 when there is none. */
  function ToI(s: string): int {
    var t := SkipSpaces(s);
    if |t| > 0 && t[0] == '-' then 0 - Magnitude(t[1..])
    else if |t| > 0 && t[0] == '+' then Magnitude(t[1..])
    else Magnitude(t)
  }

  /** `n.to_s` for a natural number. */
  function Show(n: nat): (r: string)
    ensures |r| > 0 && forall i :: 0 <= i < |r| ==> IsDigit(r[i])
  {
    if n < 10 then [('0' as int + n) as char]
    else Show(n / 10) + [('0' as int + n % 10) as char]
  }

  /** The digit values of an all-digit string. */
  function DigitValues(s: string): seq<nat>
    requires forall i :: 0 <= i < |s| ==> IsDigit(s[i])
  {
    seq(|s|, i requires 0 <= i < |s| => DigitValue(s[i]))
  }

  lemma {:induction false} LeadingDigitsOfNumeral(s: string)
    requires forall i :: 0 <= i < |s| ==> IsDigit(s[i])
    ensures LeadingDigits(s) == DigitValues(s)
    decreases |s|
  {
    if s != [] {
      LeadingDigitsOfNumeral(s[1..]);
    }
  }

  lemma {:induction false} DigitsValueOfShow(n: nat)
    ensures DigitsValue(DigitValues(Show(n))) == n
    decreases n
  {
    if n >= 10 {
      DigitsValueOfShow(n / 10);
      var ds := DigitValues(Show(n));
      assert ds[..|ds| - 1] == DigitValues(Show(n / 10));
    }
  }

  /** `to_i` reads back what `to_s` writes, with or without a minus sign. */
  lemma ToIShow(n: nat)
    ensures ToI(Show(n)) == n
    ensures ToI("-" + Show(n)) == 0 - n
  {
    var s := Show(n);
    assert IsDigit(s[0]);
    LeadingDigitsOfNumeral(s);
    DigitsValueOfShow(n);
    assert SkipSpaces(s) == s;
    assert s[0] != '-' && s[0] != '+';
    assert DropDecimalPrefix(s) == s by {
      if |s| >= 2 { assert IsDigit(s[1]); }
    }
    assert ToI(s) == DigitsValue(LeadingDigits(s));
    var m := "-" + s;
    assert SkipSpaces(m) == m;
    assert m[1..] == s;
    assert ToI(m) == 0 - DigitsValue(LeadingDigits(s));
  }

  /** A numeral written with the `0d` or `0D` prefix, with or without a sign,
      reads as the same number (`"0d5".to_i == 5`). */
  lemma ToIDecimalPrefix(n: nat, prefix: string)
    requires prefix == "0d" || prefix == "0D"
    ensures ToI(prefix + Show(n)) == n
    ensures ToI("-" + prefix + Show(n)) == 0 - n
  {
    var s := Show(n);
    assert IsDigit(s[0]);
    LeadingDigitsOfNumeral(s);
    DigitsValueOfShow(n);
    var t := prefix + s;
    assert SkipSpaces(t) == t;
    assert t[0] == '0' && t[2..] == s;
    assert ToI(t) == Magnitude(t) == DigitsValue(LeadingDigits(s));
    var m := "-" + t;
    assert SkipSpaces(m) == m;
    assert m[1..] == t;
    assert ToI(m) == 0 - Magnitude(t);
  }
}
