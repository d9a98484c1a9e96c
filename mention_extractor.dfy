/// `extract_usernames` and `mentions`
/// (lib/redmine_telegram_notifications/notifier.rb:204-217): Telegram
/// usernames are found with `text.scan(/@[a-z0-9][a-z0-9_\-]*/).uniq` and
/// rendered as a "To:" line.
module MentionExtractor {
  import opened RubyText

  /** `[a-z0-9]`: the character right after the `@`. */
  predicate IsHead(c: char) { ('a' <= c <= 'z') || ('0' <= c <= '9') }

  /** `[a-z0-9_\-]`: the characters that may follow. */
  predicate IsTail(c: char) { IsHead(c) || c == '_' || c == '-' }

  /** The pattern's fixed part, `@[a-z0-9]`, matches at position `p`. */
  predicate MatchesAt(s: string, p: int) {
    0 <= p && p + 1 < |s| && s[p] == '@' && IsHead(s[p + 1])
  }

  /** A username as the pattern matches it. */
  predicate IsUsername(n: string) {
    |n| >= 2 && n[0] == '@' && IsHead(n[1]) && forall j :: 2 <= j < |n| ==> IsTail(n[j])
  }

  /** Where the greedy `[a-z0-9_\-]*` that starts at `j` stops. */
  function TailEnd(s: string, j: nat): (k: nat)
    requires j <= |s|
    ensures j <= k <= |s|
    ensures forall t :: j <= t < k ==> IsTail(s[t])
    ensures k < |s| ==> !IsTail(s[k])
    decreases |s| - j
  {
    if j < |s| && IsTail(s[j]) then TailEnd(s, j + 1) else j
  }

  /** A match of the regular expression: `s[start..end]`. */
  datatype Span = Span(start: nat, end: nat)

  /** `m` is a whole, greedy match of the pattern in `s`. */
  predicate IsMatch(s: string, m: Span) {
    MatchesAt(s, m.start) && m.end == TailEnd(s, m.start + 2)
  }

  /** `scan` from position `i`: tries the pattern at each position from left
      to right and, after a match, resumes at its end. */
  function MatchesFrom(s: string, i: nat): seq<Span>
    requires i <= |s|
    decreases |s| - i
  {
    if i == |s| then []
    else if MatchesAt(s, i) then [Span(i, TailEnd(s, i + 2))] + MatchesFrom(s, TailEnd(s, i + 2))
    else MatchesFrom(s, i + 1)
  }

  /** Every span of `r` is a whole, greedy match starting at or after `i`. */
  predicate AreMatches(s: string, i: nat, r: seq<Span>) {
    forall k :: 0 <= k < |r| ==> i <= r[k].start && IsMatch(s, r[k])
  }

  /** The scan finds only whole, greedy matches. */
  lemma {:induction false} MatchesSound(s: string, i: nat)
    requires i <= |s|
    ensures AreMatches(s, i, MatchesFrom(s, i))
    decreases |s| - i
  {
    if i < |s| {
      MatchesFromStep(s, i);
      if MatchesAt(s, i) {
        var e := TailEnd(s, i + 2);
        MatchesSound(s, e);
        var rest := MatchesFrom(s, e);
        var r := [Span(i, e)] + rest;
        forall k | 0 <= k < |r| ensures i <= r[k].start && IsMatch(s, r[k]) {
          if k > 0 {
            assert r[k] == rest[k - 1];
          }
        }
      } else {
        MatchesSound(s, i + 1);
      }
    }
  }

  /** Each span ends before the next one starts. */
  predicate Disjoint(r: seq<Span>) {
    forall k, l :: 0 <= k < l < |r| ==> r[k].end <= r[l].start
  }

  /** Matches are found left to right and never overlap. */
  lemma {:induction false} MatchesDisjoint(s: string, i: nat)
    requires i <= |s|
    ensures Disjoint(MatchesFrom(s, i))
    decreases |s| - i
  {
    if i < |s| {
      MatchesFromStep(s, i);
      if MatchesAt(s, i) {
        var e := TailEnd(s, i + 2);
        MatchesDisjoint(s, e);
        MatchesSound(s, e);
        var rest := MatchesFrom(s, e);
        var r := [Span(i, e)] + rest;
        forall k, l | 0 <= k < l < |r| ensures r[k].end <= r[l].start {
          assert r[l] == rest[l - 1];
          if k > 0 {
            assert r[k] == rest[k - 1];
          }
        }
      } else {
        MatchesDisjoint(s, i + 1);
      }
    }
  }

  /** The matched texts of `spans`. */
  function Texts(s: string, spans: seq<Span>): seq<string>
    requires forall k :: 0 <= k < |spans| ==> spans[k].start <= spans[k].end <= |s|
  {
    seq(|spans|, k requires 0 <= k < |spans| => s[spans[k].start..spans[k].end])
  }

  // `text.scan(/@[a-z0-9][a-z0-9_\-]*/)`
  function Scan(s: string): (r: seq<string>)
    ensures forall k :: 0 <= k < |r| ==> IsUsername(r[k])
  {
    var ms := MatchesFrom(s, 0);
    MatchesSound(s, 0);
    assert forall k :: 0 <= k < |ms| ==> ms[k].start <= ms[k].end <= |s| by {
      forall k | 0 <= k < |ms| ensures ms[k].start <= ms[k].end <= |s| {
        assert IsMatch(s, ms[k]);
      }
    }
    var r := Texts(s, ms);
    assert forall k :: 0 <= k < |r| ==> IsUsername(r[k]) by {
      forall k | 0 <= k < |r| ensures IsUsername(r[k]) {
        assert IsMatch(s, ms[k]);
      }
    }
    r
  }

  // ---------------------------------------------------------------------------
  // Array#uniq

  predicate NoDuplicates<T(==)>(xs: seq<T>) {
    forall i, j :: 0 <= i < j < |xs| ==> xs[i] != xs[j]
  }

  /** Position of the first occurrence of `x` in `xs`. */
  function FirstIndex<T(==)>(xs: seq<T>, x: T): (r: nat)
    requires x in xs
    ensures r < |xs| && xs[r] == x && x !in xs[..r]
  {
    if xs[0] == x then 0
    else
      assert x in xs[1..] by { assert xs == [xs[0]] + xs[1..]; }
      var r := 1 + FirstIndex(xs[1..], x);
      assert xs[..r] == [xs[0]] + xs[1..][..r - 1];
      r
  }

  /** The first occurrence inside a prefix is the first occurrence overall. */
  lemma {:induction false} FirstIndexInPrefix<T>(xs: seq<T>, n: nat, x: T)
    requires n <= |xs| && x in xs[..n]
    ensures x in xs && FirstIndex(xs, x) == FirstIndex(xs[..n], x)
    decreases n
  {
    var p := xs[..n];
    assert p[0] == xs[0];
    assert x in xs by { var k :| 0 <= k < n && p[k] == x; assert xs[k] == x; }
    if xs[0] != x {
      assert p == [p[0]] + p[1..];
      assert p[1..] == xs[1..][..n - 1];
      FirstIndexInPrefix(xs[1..], n - 1, x);
    }
  }

  /** `xs.uniq`: each element once, at the place it first occurs. */
  function Uniq<T(==,!new)>(xs: seq<T>): (r: seq<T>)
    ensures forall x :: x in r <==> x in xs
    ensures NoDuplicates(r)
    decreases |xs|
  {
    if xs == [] then []
    else
      var init, last := xs[..|xs| - 1], xs[|xs| - 1];
      var u := Uniq(init);
      assert xs == init + [last];
      if last in init then u else u + [last]
  }

  /** The elements of `r` occur in `xs`, in the order of their first occurrence there. */
  predicate FirstSeenOrder<T(==)>(xs: seq<T>, r: seq<T>) {
    forall i, j :: 0 <= i < j < |r| ==> r[i] in xs && r[j] in xs && FirstIndex(xs, r[i]) < FirstIndex(xs, r[j])
  }

  /** `uniq` keeps elements in the order of their first occurrence. */
  lemma {:induction false} UniqFirstSeenOrder<T(!new)>(xs: seq<T>)
    ensures FirstSeenOrder(xs, Uniq(xs))
    decreases |xs|
  {
    if xs != [] {
      var init, last := xs[..|xs| - 1], xs[|xs| - 1];
      var u := Uniq(init);
      var r := Uniq(xs);
      UniqFirstSeenOrder(init);
      assert xs == init + [last];
      assert init == xs[..|xs| - 1];
      forall y | y in u ensures FirstIndex(xs, y) == FirstIndex(init, y) < |init| {
        FirstIndexInPrefix(xs, |xs| - 1, y);
      }
      if last !in init {
        assert r == u + [last];
        assert FirstIndex(xs, last) == |xs| - 1;
        forall i, j | 0 <= i < j < |r| ensures FirstIndex(xs, r[i]) < FirstIndex(xs, r[j]) {
          assert r[i] == u[i] && u[i] in u;
          if j < |u| {
            assert r[j] == u[j] && u[j] in u;
            assert FirstIndex(init, u[i]) < FirstIndex(init, u[j]);
          } else {
            assert r[j] == last;
          }
        }
      } else {
        assert r == u;
        forall i, j | 0 <= i < j < |r| ensures FirstIndex(xs, r[i]) < FirstIndex(xs, r[j]) {
          assert r[i] == u[i] && r[j] == u[j] && u[i] in u && u[j] in u;
          assert FirstIndex(init, u[i]) < FirstIndex(init, u[j]);
        }
      }
    }
  }

  /** A list without repeats is its own `uniq`. */
  lemma {:induction false} UniqOfDistinct<T(!new)>(xs: seq<T>)
    requires NoDuplicates(xs)
    ensures Uniq(xs) == xs
    decreases |xs|
  {
    if xs != [] {
      var init := xs[..|xs| - 1];
      UniqOfDistinct(init);
      assert xs[|xs| - 1] !in init;
      assert xs == init + [xs[|xs| - 1]];
    }
  }

  /** A name seen twice is kept once. */
  lemma UniqRepeated<T(!new)>(n: T)
    ensures Uniq([n, n]) == [n]
  {
    assert [n, n][..1] == [n];
    UniqOfDistinct([n]);
  }

  // ---------------------------------------------------------------------------
  // extract_usernames and mentions

  /** `extract_usernames text`: nil reads as "". */
  function ExtractUsernames(text: Option<string>): (r: seq<string>)
    ensures forall k :: 0 <= k < |r| ==> IsUsername(r[k])
    ensures NoDuplicates(r)
    ensures text.None? ==> r == []
  {
    var names := Scan(text.GetOr(""));
    var r := Uniq(names);
    assert forall k :: 0 <= k < |r| ==> IsUsername(r[k]) by {
      forall k | 0 <= k < |r| ensures IsUsername(r[k]) {
        assert r[k] in names;
      }
    }
    r
  }

  /** `mentions text`: a "To:" line naming every username, or nil when there is none. */
  function Mentions(text: Option<string>): (r: Option<string>)
    ensures r.None? <==> ExtractUsernames(text) == []
    ensures r.Some? ==> StartsWith(r.value, "\nTo: ")
  {
    var names := ExtractUsernames(text);
    if names == [] then None else Some("\nTo: " + Join(names, ", "))
  }

  // ---------------------------------------------------------------------------
  // The scan finds exactly the matches

  /** Some span of `ms` starts at `p`. */
  predicate StartsSpan(ms: seq<Span>, p: int) {
    exists k :: 0 <= k < |ms| && ms[k].start == p
  }

  lemma StartsSpanCons(m: Span, ms: seq<Span>, p: int)
    ensures StartsSpan([m] + ms, p) <==> m.start == p || StartsSpan(ms, p)
  {
    var r := [m] + ms;
    if StartsSpan(ms, p) {
      var k :| 0 <= k < |ms| && ms[k].start == p;
      assert r[k + 1] == ms[k];
    }
    if StartsSpan(r, p) {
      var k :| 0 <= k < |r| && r[k].start == p;
      if k > 0 {
        assert ms[k - 1] == r[k];
      }
    }
    if m.start == p {
      assert r[0] == m;
    }
  }

  /** Scanning from `i` finds nothing that starts before `i`. */
  lemma NoSpanBefore(s: string, i: nat, p: int)
    requires i <= |s| && p < i
    ensures !StartsSpan(MatchesFrom(s, i), p)
  {
    MatchesSound(s, i);
  }

  /** No match starts inside another one. */
  lemma InsideMatch(s: string, i: nat, p: int)
    requires MatchesAt(s, i) && i < p < TailEnd(s, i + 2)
    ensures !MatchesAt(s, p)
  {
    if p > i + 1 {
      assert IsTail(s[p]);
    }
  }

  /** Every position where `@[a-z0-9]` matches starts a span, and no other does:
      the username set is exactly the set of greedy matches in the text. */
  lemma {:induction false} MatchesFromComplete(s: string, i: nat, p: int)
    requires i <= p < |s|
    ensures MatchesAt(s, p) <==> StartsSpan(MatchesFrom(s, i), p)
    decreases |s| - i
  {
    MatchesFromStep(s, i);
    if MatchesAt(s, i) {
      var e := TailEnd(s, i + 2);
      StartsSpanCons(Span(i, e), MatchesFrom(s, e), p);
      if p < e {
        NoSpanBefore(s, e, p);
        if p > i {
          InsideMatch(s, i, p);
        }
      } else {
        MatchesFromComplete(s, e, p);
      }
    } else if p > i {
      MatchesFromComplete(s, i + 1, p);
    } else {
      NoSpanBefore(s, i + 1, p);
    }
  }

  /** Every greedy match in the text is among the extracted usernames. */
  lemma ExtractFindsEveryMatch(text: string, p: int)
    requires MatchesAt(text, p)
    ensures text[p..TailEnd(text, p + 2)] in ExtractUsernames(Some(text))
  {
    var ms := MatchesFrom(text, 0);
    MatchesSound(text, 0);
    MatchesFromComplete(text, 0, p);
    var k :| 0 <= k < |ms| && ms[k].start == p;
    assert IsMatch(text, ms[k]);
    assert Scan(text)[k] == text[p..TailEnd(text, p + 2)];
  }

  /** Every extracted username is a greedy match in the text. */
  lemma ExtractFindsOnlyMatches(text: string, name: string)
    requires name in ExtractUsernames(Some(text))
    ensures exists p :: MatchesAt(text, p) && text[p..TailEnd(text, p + 2)] == name
  {
    var ms := MatchesFrom(text, 0);
    MatchesSound(text, 0);
    assert name in Scan(text);
    var k :| 0 <= k < |Scan(text)| && Scan(text)[k] == name;
    assert IsMatch(text, ms[k]);
  }

  // ---------------------------------------------------------------------------
  // Scanning concatenations

  /** Shifts spans found in a suffix to positions in the whole string. */
  function Shift(ms: seq<Span>, d: nat): seq<Span> {
    seq(|ms|, k requires 0 <= k < |ms| => Span(ms[k].start + d, ms[k].end + d))
  }

  /** No match can straddle the end of `a`. */
  predicate Closed(a: string) {
    a == [] || (a[|a| - 1] != '@' && !IsTail(a[|a| - 1]))
  }

  lemma {:induction false} TailEndShift(a: string, b: string, j: nat)
    requires j <= |b|
    ensures TailEnd(a + b, |a| + j) == |a| + TailEnd(b, j)
    decreases |b| - j
  {
    if j < |b| {
      assert (a + b)[|a| + j] == b[j];
      if IsTail(b[j]) {
        TailEndShift(a, b, j + 1);
      }
    }
  }

  lemma {:induction false} TailEndStops(a: string, b: string, j: nat, k0: nat)
    requires j <= k0 < |a| && !IsTail(a[k0])
    ensures TailEnd(a + b, j) == TailEnd(a, j) <= k0
    decreases |a| - j
  {
    assert (a + b)[j] == a[j];
    if j < k0 && IsTail(a[j]) {
      TailEndStops(a, b, j + 1, k0);
    }
  }

  lemma ShiftCons(m: Span, ms: seq<Span>, d: nat)
    ensures Shift([m] + ms, d) == [Span(m.start + d, m.end + d)] + Shift(ms, d)
  {
  }

  lemma MatchesAtShift(a: string, b: string, j: nat)
    requires j < |b|
    ensures MatchesAt(a + b, |a| + j) == MatchesAt(b, j)
  {
    assert (a + b)[|a| + j] == b[j];
    if j + 1 < |b| {
      assert (a + b)[|a| + j + 1] == b[j + 1];
    }
  }

  /** One step of the scan, as the definition takes it. */
  lemma MatchesFromStep(s: string, i: nat)
    requires i < |s|
    ensures MatchesAt(s, i) ==> MatchesFrom(s, i) == [Span(i, TailEnd(s, i + 2))] + MatchesFrom(s, TailEnd(s, i + 2))
    ensures !MatchesAt(s, i) ==> MatchesFrom(s, i) == MatchesFrom(s, i + 1)
  {
  }

  /** A match in `b` is a match at the shifted position in `a + b`. */
  lemma MatchesFromShiftHit(a: string, b: string, j: nat)
    requires j < |b| && MatchesAt(b, j)
    ensures MatchesFrom(a + b, |a| + j)
              == [Span(|a| + j, |a| + TailEnd(b, j + 2))] + MatchesFrom(a + b, |a| + TailEnd(b, j + 2))
  {
    var s, x := a + b, |a| + j;
    MatchesAtShift(a, b, j);
    MatchesFromStep(s, x);
    TailEndShift(a, b, j + 2);
    assert |a| + (j + 2) == x + 2;
    assert TailEnd(s, x + 2) == |a| + TailEnd(b, j + 2);
  }

  /** No match in `b` is no match at the shifted position in `a + b`. */
  lemma MatchesFromShiftMiss(a: string, b: string, j: nat)
    requires j < |b| && !MatchesAt(b, j)
    ensures MatchesFrom(a + b, |a| + j) == MatchesFrom(a + b, |a| + (j + 1))
  {
    var s, x := a + b, |a| + j;
    MatchesAtShift(a, b, j);
    MatchesFromStep(s, x);
    assert x + 1 == |a| + (j + 1);
  }

  /** Prepending a span commutes with shifting. */
  lemma ShiftStep(whole: seq<Span>, m: Span, rest: seq<Span>, shiftedRest: seq<Span>, d: nat)
    requires whole == [Span(m.start + d, m.end + d)] + shiftedRest
    requires shiftedRest == Shift(rest, d)
    ensures whole == Shift([m] + rest, d)
  {
    ShiftCons(m, rest, d);
  }

  lemma {:induction false} MatchesFromShift(a: string, b: string, j: nat)
    requires j <= |b|
    ensures MatchesFrom(a + b, |a| + j) == Shift(MatchesFrom(b, j), |a|)
    decreases |b| - j
  {
    if j < |b| {
      MatchesFromStep(b, j);
      if MatchesAt(b, j) {
        MatchesFromShiftHit(a, b, j);
        var e := TailEnd(b, j + 2);
        MatchesFromShift(a, b, e);
        ShiftStep(MatchesFrom(a + b, |a| + j), Span(j, e), MatchesFrom(b, e), MatchesFrom(a + b, |a| + e), |a|);
      } else {
        MatchesFromShiftMiss(a, b, j);
        MatchesFromShift(a, b, j + 1);
      }
    }
  }

  lemma {:induction false} MatchesFromConcat(a: string, b: string, i: nat)
    requires Closed(a) && i <= |a|
    ensures MatchesFrom(a + b, i) == MatchesFrom(a, i) + Shift(MatchesFrom(b, 0), |a|)
    decreases |a| - i
  {
    var s := a + b;
    if i == |a| {
      MatchesFromShift(a, b, 0);
    } else {
      assert s[i] == a[i];
      if MatchesAt(s, i) {
        assert i + 1 < |a|;
        assert s[i + 1] == a[i + 1];
        assert MatchesAt(a, i);
        assert i + 2 <= |a| - 1;
        TailEndStops(a, b, i + 2, |a| - 1);
        var e := TailEnd(a, i + 2);
        MatchesFromConcat(a, b, e);
      } else {
        if i + 1 < |a| {
          assert s[i + 1] == a[i + 1];
        }
        assert !MatchesAt(a, i);
        MatchesFromConcat(a, b, i + 1);
      }
    }
  }

  predicate Within(ms: seq<Span>, n: nat) {
    forall k :: 0 <= k < |ms| ==> ms[k].start <= ms[k].end <= n
  }

  lemma TextsAppend(s: string, m1: seq<Span>, m2: seq<Span>)
    requires Within(m1, |s|) && Within(m2, |s|)
    ensures Within(m1 + m2, |s|)
    ensures Texts(s, m1 + m2) == Texts(s, m1) + Texts(s, m2)
  {
  }

  lemma TextsPrefix(a: string, b: string, ms: seq<Span>)
    requires Within(ms, |a|)
    ensures Within(ms, |a + b|) && Texts(a + b, ms) == Texts(a, ms)
  {
    forall k | 0 <= k < |ms| ensures (a + b)[ms[k].start..ms[k].end] == a[ms[k].start..ms[k].end] {
    }
  }

  lemma TextsShift(a: string, b: string, ms: seq<Span>)
    requires Within(ms, |b|)
    ensures Within(Shift(ms, |a|), |a + b|) && Texts(a + b, Shift(ms, |a|)) == Texts(b, ms)
  {
    var sh := Shift(ms, |a|);
    forall k | 0 <= k < |ms|
      ensures (a + b)[sh[k].start..sh[k].end] == b[ms[k].start..ms[k].end]
    {
    }
  }

  lemma MatchesWithin(s: string, i: nat)
    requires i <= |s|
    ensures Within(MatchesFrom(s, i), |s|)
  {
    var ms := MatchesFrom(s, i);
    MatchesSound(s, i);
    forall k | 0 <= k < |ms| ensures ms[k].start <= ms[k].end <= |s| {
      assert IsMatch(s, ms[k]);
    }
  }

  /** Scanning splits at a point no match can straddle. */
  lemma ScanConcat(a: string, b: string)
    requires Closed(a)
    ensures Scan(a + b) == Scan(a) + Scan(b)
  {
    var ma, mb := MatchesFrom(a, 0), MatchesFrom(b, 0);
    MatchesFromConcat(a, b, 0);
    MatchesWithin(a, 0);
    MatchesWithin(b, 0);
    TextsPrefix(a, b, ma);
    TextsShift(a, b, mb);
    TextsAppend(a + b, ma, Shift(mb, |a|));
  }

  lemma {:induction false} NoMatchesFrom(s: string, i: nat)
    requires i <= |s|
    requires forall p :: i <= p < |s| ==> !MatchesAt(s, p)
    ensures MatchesFrom(s, i) == []
    decreases |s| - i
  {
    if i < |s| {
      NoMatchesFrom(s, i + 1);
    }
  }

  /** Text with no `@` contains no username. */
  lemma ScanWithoutAt(s: string)
    requires forall p :: 0 <= p < |s| ==> s[p] != '@'
    ensures Scan(s) == []
  {
    NoMatchesFrom(s, 0);
  }

  /** A username followed by a separator it cannot run into scans as itself. */
  lemma ScanUsername(n: string, sep: string)
    requires IsUsername(n)
    requires forall p :: 0 <= p < |sep| ==> sep[p] != '@'
    requires sep == [] || !IsTail(sep[0])
    ensures Scan(n + sep) == [n]
  {
    var s := n + sep;
    assert s[0] == '@' && s[1] == n[1];
    assert forall t :: 2 <= t < |n| ==> s[t] == n[t];
    var e := TailEnd(s, 2);
    if |sep| > 0 {
      assert s[|n|] == sep[0];
    }
    assert e == |n|;
    assert forall p :: |n| <= p < |s| ==> s[p] == sep[p - |n|];
    NoMatchesFrom(s, |n|);
    assert MatchesFrom(s, 0) == [Span(0, |n|)];
    assert s[0..|n|] == n;
  }

  /** Joined usernames scan back to the list. */
  lemma {:induction false} ScanJoin(names: seq<string>)
    requires names != []
    requires forall k :: 0 <= k < |names| ==> IsUsername(names[k])
    ensures Scan(Join(names, ", ")) == names
    decreases |names|
  {
    if |names| == 1 {
      ScanUsername(names[0], "");
      assert names[0] + "" == names[0];
    } else {
      var head := names[0] + ", ";
      ScanUsername(names[0], ", ");
      ScanJoin(names[1..]);
      assert Join(names, ", ") == head + Join(names[1..], ", ");
      ScanConcat(head, Join(names[1..], ", "));
      assert names == [names[0]] + names[1..];
    }
  }

  /** Scanning the rendered "To:" line gives back exactly the usernames it
      was made from, so the line neither loses nor invents a mention. */
  lemma MentionsRescan(text: Option<string>)
    requires Mentions(text).Some?
    ensures ExtractUsernames(Mentions(text)) == ExtractUsernames(text)
  {
    var names := ExtractUsernames(text);
    var prefix, joined := "\nTo: ", Join(names, ", ");
    assert Mentions(text) == Some(prefix + joined);
    assert Closed(prefix) by { assert prefix[|prefix| - 1] == ' '; }
    assert Scan(prefix) == [] by {
      assert forall p :: 0 <= p < |prefix| ==> prefix[p] != '@';
      ScanWithoutAt(prefix);
    }
    ScanJoin(names);
    ScanConcat(prefix, joined);
    assert Scan(prefix + joined) == names;
    UniqOfDistinct(names);
  }

  // ---------------------------------------------------------------------------
  // Worked case

  /** "@Bob" is not a username: its first letter is uppercase. */
  lemma ScanUppercase(a: string)
    requires a == "hello @Bob and "
    ensures Scan(a) == [] && Closed(a)
  {
    forall p | 0 <= p < |a| ensures !MatchesAt(a, p) {
      if p == 6 {
        assert a[7] == 'B';
      } else {
        assert a[p] != '@';
      }
    }
    NoMatchesFrom(a, 0);
    assert a[|a| - 1] == ' ';
  }

  lemma ScanAlice(n: string, b: string)
    requires n == "@alice_2" && b == " and "
    ensures Scan(n + b) == [n] && Scan(n) == [n] && Closed(n + b)
  {
    assert IsUsername(n) by {
      assert n[1] == 'a';
      forall j | 2 <= j < |n| ensures IsTail(n[j]) {
      }
    }
    assert forall p :: 0 <= p < |b| ==> b[p] != '@';
    ScanUsername(n, b);
    ScanUsername(n, "");
    assert n + "" == n;
    assert (n + b)[|n + b| - 1] == ' ';
  }

  lemma ScanExample(text: string, a: string, n: string, b: string)
    requires a == "hello @Bob and " && n == "@alice_2" && b == " and "
    requires text == a + ((n + b) + n)
    ensures Scan(text) == [n, n]
  {
    ScanUppercase(a);
    ScanAlice(n, b);
    ScanConcat(n + b, n);
    ScanConcat(a, (n + b) + n);
  }

  /** An uppercase-led token is not a username, and a repeated one is kept once. */
  lemma ExtractExample(text: string)
    requires text == "hello @Bob and @alice_2 and @alice_2"
    ensures ExtractUsernames(Some(text)) == ["@alice_2"]
    ensures ExtractUsernames(None) == []
  {
    var a, n, b := "hello @Bob and ", "@alice_2", " and ";
    assert text == a + ((n + b) + n);
    ScanExample(text, a, n, b);
    UniqRepeated(n);
    ScanWithoutAt("");
  }
}
