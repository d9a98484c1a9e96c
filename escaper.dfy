/// `escape` (lib/redmine_telegram_notifications/notifier.rb:103-105): text made
/// safe for Telegram's HTML parse mode by a fixed chain of literal `gsub`s.
/// The chain is proved equal to a single left-to-right pass, `SafeHtml`, from
/// which the properties a caller relies on follow.
module Escaper {
  import opened RubyText

  /** The `escape` chain, step by step and in the source's order. */
  function Escape(s: string): string {
    var amp := ReplaceAll(s, "&", "&amp;");
    var lt := ReplaceAll(amp, "<", "&lt;");
    var gt := ReplaceAll(lt, ">", "&gt;");
    // "\[" and "\]" in a double-quoted Ruby literal are just "[" and "]"
    var lb := ReplaceAll(gt, "[", "[");
    var rb := ReplaceAll(lb, "]", "]");
    var open := ReplaceAll(rb, "&lt;pre&gt;", "<code>");
    ReplaceAll(open, "&lt;/pre&gt;", "</code>")
  }

  /** `escape x` where `x` may be nil: `nil.to_s` is the empty string. */
  function EscapeNil(x: Option<string>): string {
    Escape(x.GetOr(""))
  }

  /** The HTML entity for one of `&`, `<`, `>`; any other character stands for itself. */
  function Entity(c: char): string {
    if c == '&' then "&amp;" else if c == '<' then "&lt;" else if c == '>' then "&gt;" else [c]
  }

  /** Every character replaced by its entity. */
  function Entities(s: string): string
    decreases |s|
  {
    if s == [] then [] else Entity(s[0]) + Entities(s[1..])
  }

  /** Entities, except that a literal `<pre>` becomes `<code>`. */
  function EntitiesOpenRestored(s: string): string
    decreases |s|
  {
    if StartsWith(s, "<pre>") then "<code>" + EntitiesOpenRestored(s[5..])
    else if s == [] then []
    else Entity(s[0]) + EntitiesOpenRestored(s[1..])
  }

  /** What `escape` promises, read left to right: `<pre>` and `</pre>` become
      `<code>` and `</code>`, every other `&`, `<`, `>` becomes its entity,
      and every other character is copied. */
  function SafeHtml(s: string): string
    decreases |s|
  {
    if StartsWith(s, "<pre>") then "<code>" + SafeHtml(s[5..])
    else if StartsWith(s, "</pre>") then "</code>" + SafeHtml(s[6..])
    else if s == [] then []
    else Entity(s[0]) + SafeHtml(s[1..])
  }

  // ---------------------------------------------------------------------------
  // The entity code

  lemma {:induction false} EntitiesConcat(a: string, b: string)
    ensures Entities(a + b) == Entities(a) + Entities(b)
    decreases |a|
  {
    if a == [] {
      assert a + b == b;
    } else {
      assert (a + b)[1..] == a[1..] + b;
      EntitiesConcat(a[1..], b);
    }
  }

  /** No entity is a proper prefix of another: the code is uniquely decodable. */
  lemma EntityPrefixFree(x: string, c: char, d: char)
    requires StartsWith(x, Entity(c)) && StartsWith(x, Entity(d))
    ensures c == d
  {
    assert x[0] == Entity(c)[0] && x[0] == Entity(d)[0];
    if c in "&<>" && d in "&<>" {
      assert x[1] == Entity(c)[1] && x[1] == Entity(d)[1];
    }
  }

  /** Only the first character of an entity can be `&`, and none is `<`. */
  lemma EntityShape(c: char)
    ensures |Entity(c)| > 0 && Entity(c)[0] != '<'
    ensures forall i :: 1 <= i < |Entity(c)| ==> Entity(c)[i] != '&'
  {
  }

  /** If the entities of `u` head the entities of `t`, then `u` heads `t`. */
  lemma {:induction false} EntitiesPrefix(t: string, u: string)
    requires StartsWith(Entities(t), Entities(u))
    ensures StartsWith(t, u)
    decreases |u|
  {
    if u != [] {
      EntityShape(u[0]);
      assert t != [];
      var x := Entities(t);
      assert StartsWith(x, Entity(t[0]));
      assert x[..|Entity(u[0])|] == Entities(u)[..|Entity(u[0])|];
      EntityPrefixFree(x, t[0], u[0]);
      assert Entities(t[1..]) == x[|Entity(t[0])|..];
      assert Entities(u[1..]) == Entities(u)[|Entity(u[0])|..];
      EntitiesPrefix(t[1..], u[1..]);
      assert t == [t[0]] + t[1..] && u == [u[0]] + u[1..];
    }
  }

  /** The same through the `<pre>` restore: `<code>` cannot start an entity. */
  lemma {:induction false} OpenRestoredPrefix(t: string, u: string)
    requires StartsWith(EntitiesOpenRestored(t), Entities(u))
    ensures StartsWith(t, u)
    decreases |u|
  {
    if u != [] {
      EntityShape(u[0]);
      var x := EntitiesOpenRestored(t);
      assert x[0] == Entities(u)[0] == Entity(u[0])[0];
      assert !StartsWith(t, "<pre>");
      assert t != [];
      assert StartsWith(x, Entity(t[0]));
      assert x[..|Entity(u[0])|] == Entities(u)[..|Entity(u[0])|];
      EntityPrefixFree(x, t[0], u[0]);
      assert EntitiesOpenRestored(t[1..]) == x[|Entity(t[0])|..];
      assert Entities(u[1..]) == Entities(u)[|Entity(u[0])|..];
      OpenRestoredPrefix(t[1..], u[1..]);
      assert t == [t[0]] + t[1..] && u == [u[0]] + u[1..];
    }
  }

  /** Text without `&`, `<` and `>` is its own entity encoding. */
  lemma {:induction false} EntitiesOfPlainText(s: string)
    requires forall i :: 0 <= i < |s| ==> s[i] != '&' && s[i] != '<' && s[i] != '>'
    ensures Entities(s) == s
    decreases |s|
  {
    if s != [] {
      EntitiesOfPlainText(s[1..]);
      assert s == [s[0]] + s[1..];
    }
  }

  // ---------------------------------------------------------------------------
  // The gsub chain, stage by stage

  /** The first three steps replace every `&`, `<` and `>` by its entity. */
  lemma {:induction false} EntityStepsAreEntities(s: string)
    ensures ReplaceAll(ReplaceAll(ReplaceAll(s, "&", "&amp;"), "<", "&lt;"), ">", "&gt;") == Entities(s)
    decreases |s|
  {
    if s != [] {
      var c, t := s[0], s[1..];
      assert s == [c] + t;
      ReplaceCharConcat([c], t, '&', "&amp;");
      var a1, a2 := ReplaceAll([c], "&", "&amp;"), ReplaceAll(t, "&", "&amp;");
      ReplaceCharConcat(a1, a2, '<', "&lt;");
      var b1, b2 := ReplaceAll(a1, "<", "&lt;"), ReplaceAll(a2, "<", "&lt;");
      ReplaceCharConcat(b1, b2, '>', "&gt;");
      var c1 := ReplaceAll(b1, ">", "&gt;");
      EntityStepsAreEntities(t);
      if c == '&' {
        assert a1 == "&amp;";
        ReplaceCharAbsent("&amp;", '<', "&lt;");
        ReplaceCharAbsent("&amp;", '>', "&gt;");
      } else if c == '<' {
        ReplaceCharAbsent([c], '&', "&amp;");
        assert b1 == "&lt;";
        ReplaceCharAbsent("&lt;", '>', "&gt;");
      } else if c == '>' {
        ReplaceCharAbsent([c], '&', "&amp;");
        ReplaceCharAbsent([c], '<', "&lt;");
        assert c1 == "&gt;";
      } else {
        ReplaceCharAbsent([c], '&', "&amp;");
        ReplaceCharAbsent([c], '<', "&lt;");
        ReplaceCharAbsent([c], '>', "&gt;");
      }
    }
  }

  /** Restoring `&lt;pre&gt;` finds exactly the entities of a literal `<pre>`. */
  lemma {:induction false} OpenStepRestoresPre(s: string)
    ensures ReplaceAll(Entities(s), "&lt;pre&gt;", "<code>") == EntitiesOpenRestored(s)
    decreases |s|
  {
    var pat := "&lt;pre&gt;";
    assert Entities("<pre>") == pat;
    if StartsWith(s, "<pre>") {
      assert s == "<pre>" + s[5..];
      EntitiesConcat("<pre>", s[5..]);
      ReplaceAllHit(Entities(s[5..]), pat, "<code>");
      OpenStepRestoresPre(s[5..]);
    } else if s != [] {
      var a, b := Entity(s[0]), Entities(s[1..]);
      EntityShape(s[0]);
      forall i | 0 <= i < |a|
        ensures !StartsWith((a + b)[i..], pat)
      {
        if i == 0 {
          assert (a + b)[i..] == Entities(s);
          if StartsWith(Entities(s), pat) {
            EntitiesPrefix(s, "<pre>");
          }
        } else {
          assert (a + b)[i..][0] == a[i] != '&';
        }
      }
      ReplaceAllSkip(a, b, pat, "<code>");
      OpenStepRestoresPre(s[1..]);
    }
  }

  /** Entities of a prefix in which no `<pre>` starts pass through the restore. */
  lemma {:induction false} OpenRestoredSkip(u: string, v: string)
    requires forall i :: 0 <= i < |u| ==> !StartsWith((u + v)[i..], "<pre>")
    ensures EntitiesOpenRestored(u + v) == Entities(u) + EntitiesOpenRestored(v)
    decreases |u|
  {
    if u == [] {
      assert u + v == v;
    } else {
      var s := u + v;
      assert s[0..] == s && s[0] == u[0];
      assert s[1..] == u[1..] + v;
      forall i | 0 <= i < |u[1..]|
        ensures !StartsWith((u[1..] + v)[i..], "<pre>")
      {
        assert (u[1..] + v)[i..] == s[i + 1..];
      }
      OpenRestoredSkip(u[1..], v);
    }
  }

  /** Restoring `&lt;/pre&gt;` then yields exactly `SafeHtml`. */
  lemma {:induction false} CloseStepRestoresPre(s: string)
    ensures ReplaceAll(EntitiesOpenRestored(s), "&lt;/pre&gt;", "</code>") == SafeHtml(s)
    decreases |s|
  {
    var pat := "&lt;/pre&gt;";
    assert Entities("</pre>") == pat;
    if StartsWith(s, "<pre>") {
      var a, b := "<code>", EntitiesOpenRestored(s[5..]);
      forall i | 0 <= i < |a|
        ensures !StartsWith((a + b)[i..], pat)
      {
        assert (a + b)[i..][0] == a[i] != '&';
      }
      ReplaceAllSkip(a, b, pat, "</code>");
      CloseStepRestoresPre(s[5..]);
    } else if StartsWith(s, "</pre>") {
      var v := s[6..];
      assert s == "</pre>" + v;
      forall i | 0 <= i < 6
        ensures !StartsWith(("</pre>" + v)[i..], "<pre>")
      {
        assert ("</pre>" + v)[i] == "</pre>"[i];
        assert ("</pre>" + v)[1] == '/';
      }
      OpenRestoredSkip("</pre>", v);
      ReplaceAllHit(EntitiesOpenRestored(v), pat, "</code>");
      CloseStepRestoresPre(v);
    } else if s != [] {
      var a, b := Entity(s[0]), EntitiesOpenRestored(s[1..]);
      EntityShape(s[0]);
      forall i | 0 <= i < |a|
        ensures !StartsWith((a + b)[i..], pat)
      {
        if i == 0 {
          assert (a + b)[i..] == EntitiesOpenRestored(s);
          if StartsWith(EntitiesOpenRestored(s), pat) {
            OpenRestoredPrefix(s, "</pre>");
          }
        } else {
          assert (a + b)[i..][0] == a[i] != '&';
        }
      }
      ReplaceAllSkip(a, b, pat, "</code>");
      CloseStepRestoresPre(s[1..]);
    }
  }

  /** `escape` is the single left-to-right pass `SafeHtml`. */
  lemma EscapeIsSafeHtml(s: string)
    ensures Escape(s) == SafeHtml(s)
  {
    EntityStepsAreEntities(s);
    ReplaceAllSelf(Entities(s), "[");
    ReplaceAllSelf(Entities(s), "]");
    OpenStepRestoresPre(s);
    CloseStepRestoresPre(s);
  }

  // ---------------------------------------------------------------------------
  // What the output looks like

  predicate EndsWith(s: string, suffix: string) {
    |suffix| <= |s| && s[|s| - |suffix|..] == suffix
  }

  /** The character at `i` is placed as Telegram's HTML mode needs it: a `<`
      opens `<code>` or `</code>`, a `>` closes one of them, and a `&` opens
      one of the three entities. */
  predicate WellPlaced(r: string, i: nat)
    requires i < |r|
  {
    (r[i] == '<' ==> StartsWith(r[i..], "<code>") || StartsWith(r[i..], "</code>"))
    && (r[i] == '>' ==> EndsWith(r[..i + 1], "<code>") || EndsWith(r[..i + 1], "</code>"))
    && (r[i] == '&' ==> StartsWith(r[i..], "&amp;") || StartsWith(r[i..], "&lt;") || StartsWith(r[i..], "&gt;"))
  }

  predicate Markup(r: string) {
    forall i :: 0 <= i < |r| ==> WellPlaced(r, i)
  }

  lemma MarkupConcat(a: string, b: string)
    requires Markup(a) && Markup(b)
    ensures Markup(a + b)
  {
    var r := a + b;
    forall i | 0 <= i < |r|
      ensures WellPlaced(r, i)
    {
      if i < |a| {
        assert WellPlaced(a, i);
        assert r[i..] == a[i..] + b;
        assert r[..i + 1] == a[..i + 1];
      } else {
        var j := i - |a|;
        assert WellPlaced(b, j);
        assert r[i..] == b[j..];
        assert r[..i + 1] == a + b[..j + 1];
      }
    }
  }

  lemma BlocksAreMarkup(c: char)
    ensures Markup("<code>") && Markup("</code>") && Markup(Entity(c))
  {
    var open, close := "<code>", "</code>";
    forall i | 0 <= i < |open| ensures WellPlaced(open, i) {
      assert open[..6] == open;
    }
    forall i | 0 <= i < |close| ensures WellPlaced(close, i) {
      assert close[..7] == close;
    }
    var e := Entity(c);
    forall i | 0 <= i < |e| ensures WellPlaced(e, i) {
      assert e[0..] == e;
    }
  }

  /** The only raw angle brackets `escape` emits are the `<code>` and
      `</code>` tags, and every `&` it emits opens an entity. */
  lemma {:induction false} EscapeOutputIsMarkup(s: string)
    ensures Markup(Escape(s))
    decreases |s|
  {
    EscapeIsSafeHtml(s);
    if s != [] {
      BlocksAreMarkup(s[0]);
      if StartsWith(s, "<pre>") {
        EscapeOutputIsMarkup(s[5..]);
        EscapeIsSafeHtml(s[5..]);
        MarkupConcat("<code>", SafeHtml(s[5..]));
      } else if StartsWith(s, "</pre>") {
        EscapeOutputIsMarkup(s[6..]);
        EscapeIsSafeHtml(s[6..]);
        MarkupConcat("</code>", SafeHtml(s[6..]));
      } else {
        EscapeOutputIsMarkup(s[1..]);
        EscapeIsSafeHtml(s[1..]);
        MarkupConcat(Entity(s[0]), SafeHtml(s[1..]));
      }
    }
  }

  /** Away from a `<`, the single pass encodes one character. */
  lemma SafeHtmlStep(s: string)
    requires |s| > 0 && s[0] != '<'
    ensures SafeHtml(s) == Entity(s[0]) + SafeHtml(s[1..])
  {
    NoTagAt(s, "<pre>");
    NoTagAt(s, "</pre>");
  }

  /** Text that does not start with `<` does not start with a tag. */
  lemma NoTagAt(s: string, tag: string)
    requires |s| > 0 && s[0] != '<' && |tag| > 0 && tag[0] == '<'
    ensures !StartsWith(s, tag)
  {
    if |tag| <= |s| {
      assert s[..|tag|][0] == s[0];
    }
  }

  /** Text without `&`, `<` and `>` passes through the single pass unchanged. */
  lemma {:induction false} SafeHtmlPlainPrefix(x: string, rest: string)
    requires forall i :: 0 <= i < |x| ==> x[i] != '&' && x[i] != '<' && x[i] != '>'
    ensures SafeHtml(x + rest) == x + SafeHtml(rest)
    decreases |x|
  {
    if x == [] {
      assert x + rest == rest;
    } else {
      var s := x + rest;
      var y := x[1..];
      assert s[0] == x[0] && s[1..] == y + rest;
      assert forall i :: 0 <= i < |y| ==> y[i] == x[i + 1];
      SafeHtmlStep(s);
      SafeHtmlPlainPrefix(y, rest);
      calc {
        SafeHtml(s);
        Entity(x[0]) + SafeHtml(y + rest);
        [x[0]] + (y + SafeHtml(rest));
        ([x[0]] + y) + SafeHtml(rest);
        { assert [x[0]] + y == x; }
        x + SafeHtml(rest);
      }
    }
  }

  /** Text with no `&`, `<` or `>` comes out unchanged; in particular `[`
      and `]` are left alone. */
  lemma EscapeFixesPlainText(s: string)
    requires forall i :: 0 <= i < |s| ==> s[i] != '&' && s[i] != '<' && s[i] != '>'
    ensures Escape(s) == s
  {
    EscapeIsSafeHtml(s);
    SafeHtmlPlainPrefix(s, "");
    assert s + "" == s;
  }

  /** Without `<pre>` or `</pre>`, the single pass is the entity encoding. */
  lemma {:induction false} SafeHtmlWithoutPre(s: string)
    requires forall i :: 0 <= i <= |s| ==> !StartsWith(s[i..], "<pre>") && !StartsWith(s[i..], "</pre>")
    ensures SafeHtml(s) == Entities(s)
    decreases |s|
  {
    if s != [] {
      assert s[0..] == s;
      forall i | 0 <= i <= |s[1..]|
        ensures !StartsWith(s[1..][i..], "<pre>") && !StartsWith(s[1..][i..], "</pre>")
      {
        assert s[1..][i..] == s[i + 1..];
      }
      SafeHtmlWithoutPre(s[1..]);
    }
  }

  /** Without a literal `<pre>` or `</pre>`, `escape` replaces every `&`, `<`
      and `>` by its entity and nothing else. */
  lemma EscapeWithoutPreIsEntities(s: string)
    requires forall i :: 0 <= i <= |s| ==> !StartsWith(s[i..], "<pre>") && !StartsWith(s[i..], "</pre>")
    ensures Escape(s) == Entities(s)
  {
    EscapeIsSafeHtml(s);
    SafeHtmlWithoutPre(s);
  }

  // ---------------------------------------------------------------------------
  // Nothing is lost

  lemma NoLessThanNoPre(s: string)
    requires forall i :: 0 <= i < |s| ==> s[i] != '<'
    ensures forall i :: 0 <= i <= |s| ==> !StartsWith(s[i..], "<pre>") && !StartsWith(s[i..], "</pre>")
  {
    forall i | 0 <= i <= |s|
      ensures !StartsWith(s[i..], "<pre>") && !StartsWith(s[i..], "</pre>")
    {
      if i < |s| {
        assert s[i..][0] == s[i];
      }
    }
  }

  /** Reads `escape`'s output back: tags to `<pre>`/`</pre>`, entities to characters. */
  function Unescape(r: string): string
    decreases |r|
  {
    if StartsWith(r, "<code>") then "<pre>" + Unescape(r[6..])
    else if StartsWith(r, "</code>") then "</pre>" + Unescape(r[7..])
    else if StartsWith(r, "&amp;") then "&" + Unescape(r[5..])
    else if StartsWith(r, "&lt;") then "<" + Unescape(r[4..])
    else if StartsWith(r, "&gt;") then ">" + Unescape(r[4..])
    else if r == [] then []
    else [r[0]] + Unescape(r[1..])
  }

  lemma UnescapeBlock(b: string, rest: string, orig: string)
    requires (b == "<code>" && orig == "<pre>") || (b == "</code>" && orig == "</pre>")
    ensures Unescape(b + rest) == orig + Unescape(rest)
  {
    var r := b + rest;
    assert r[..|b|] == b && r[|b|..] == rest;
    if b == "</code>" {
      assert r[1] == '/';
      assert !StartsWith(r, "<code>");
    }
  }

  lemma UnescapeEntity(c: char, rest: string)
    ensures Unescape(Entity(c) + rest) == [c] + Unescape(rest)
  {
    var b := Entity(c);
    var r := b + rest;
    assert r[..|b|] == b && r[|b|..] == rest;
    assert r[0] == b[0];
    assert !StartsWith(r, "<code>") && !StartsWith(r, "</code>");
    if c == '&' {
      assert StartsWith(r, "&amp;");
    } else if c == '<' {
      assert r[1] == 'l';
      assert !StartsWith(r, "&amp;") && StartsWith(r, "&lt;");
    } else if c == '>' {
      assert r[1] == 'g';
      assert !StartsWith(r, "&amp;") && !StartsWith(r, "&lt;") && StartsWith(r, "&gt;");
    } else {
      assert !StartsWith(r, "&amp;") && !StartsWith(r, "&lt;") && !StartsWith(r, "&gt;");
      assert r[1..] == rest;
    }
  }

  /** `escape` is injective: its output determines its input. */
  lemma {:induction false} UnescapeEscape(s: string)
    ensures Unescape(Escape(s)) == s
    decreases |s|
  {
    EscapeIsSafeHtml(s);
    if StartsWith(s, "<pre>") {
      EscapeIsSafeHtml(s[5..]);
      UnescapeEscape(s[5..]);
      UnescapeBlock("<code>", SafeHtml(s[5..]), "<pre>");
      assert s == "<pre>" + s[5..];
    } else if StartsWith(s, "</pre>") {
      EscapeIsSafeHtml(s[6..]);
      UnescapeEscape(s[6..]);
      UnescapeBlock("</code>", SafeHtml(s[6..]), "</pre>");
      assert s == "</pre>" + s[6..];
    } else if s != [] {
      EscapeIsSafeHtml(s[1..]);
      UnescapeEscape(s[1..]);
      UnescapeEntity(s[0], SafeHtml(s[1..]));
      assert s == [s[0]] + s[1..];
    }
  }

  /** Only empty text escapes to empty text. */
  lemma EscapeEmptyOnlyEmpty(s: string)
    ensures Escape(s) == "" <==> s == ""
  {
    UnescapeEscape(s);
    assert Unescape("") == "";
    if s == "" {
      EscapeIsSafeHtml(s);
    }
  }

  // ---------------------------------------------------------------------------
  // Worked cases

  lemma SafeHtmlOpen(rest: string)
    ensures SafeHtml("<pre>" + rest) == "<code>" + SafeHtml(rest)
  {
    var s := "<pre>" + rest;
    assert s[..5] == "<pre>" && s[5..] == rest;
  }

  lemma SafeHtmlClose(u: string)
    requires u == "</pre>"
    ensures SafeHtml(u) == "</code>"
  {
    assert u[1] == '/';
    assert !StartsWith(u, "<pre>") && StartsWith(u, "</pre>") && u[6..] == [];
  }

  /** `<pre>` blocks around plain text become Telegram `<code>` blocks. */
  lemma EscapePreBlock(x: string)
    requires forall i :: 0 <= i < |x| ==> x[i] != '&' && x[i] != '<' && x[i] != '>'
    ensures Escape("<pre>" + x + "</pre>") == "<code>" + x + "</code>"
  {
    var rest := x + "</pre>";
    assert "<pre>" + x + "</pre>" == "<pre>" + rest;
    EscapeIsSafeHtml("<pre>" + rest);
    SafeHtmlOpen(rest);
    SafeHtmlPlainPrefix(x, "</pre>");
    SafeHtmlClose("</pre>");
  }

  lemma EntityTextHasNoLessThan(s: string)
    requires s == "&lt;pre&gt;"
    ensures forall i :: 0 <= i < |s| ==> s[i] != '<'
  {
  }

  lemma EntityOfAmpersand(amp: string)
    requires amp == "&"
    ensures Entities(amp) == "&amp;"
  {
    assert amp[0] == '&' && amp[1..] == [];
  }

  lemma SplitEntityText(s: string, amp: string, p1: string, p2: string)
    requires s == "&lt;pre&gt;" && amp == "&" && p1 == "lt;pre" && p2 == "gt;"
    ensures s == amp + p1 + amp + p2
  {
  }

  lemma JoinEntityText(r: string, e: string, p1: string, p2: string)
    requires r == "&amp;lt;pre&amp;gt;" && e == "&amp;" && p1 == "lt;pre" && p2 == "gt;"
    ensures r == e + p1 + e + p2
  {
  }

  lemma EntitiesOfEntityText(s: string, p1: string, p2: string)
    requires s == "&lt;pre&gt;" && p1 == "lt;pre" && p2 == "gt;"
    ensures Entities(s) == "&amp;lt;pre&amp;gt;"
  {
    var amp := "&";
    SplitEntityText(s, amp, p1, p2);
    JoinEntityText("&amp;lt;pre&amp;gt;", "&amp;", p1, p2);
    EntityOfAmpersand(amp);
    EntitiesOfPlainText(p1);
    EntitiesOfPlainText(p2);
    EntitiesConcat(amp, p1);
    EntitiesConcat(amp + p1, amp);
    EntitiesConcat(amp + p1 + amp, p2);
  }

  /** Because `&` is escaped first, literal `&lt;pre&gt;` text is not turned into a tag. */
  lemma EscapeEntityTextIsNotATag(s: string)
    requires s == "&lt;pre&gt;"
    ensures Escape(s) == "&amp;lt;pre&amp;gt;"
  {
    EntitiesOfEntityText(s, "lt;pre", "gt;");
    EntityTextHasNoLessThan(s);
    NoLessThanNoPre(s);
    EscapeWithoutPreIsEntities(s);
  }
}
