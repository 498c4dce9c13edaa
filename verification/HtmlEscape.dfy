/** The two escapers of the dashboard page, `esc` and `escapeHtml` in `cli/dashboard/page.ts`. */
module HtmlEscape {

  function Entity(c: char): string {
    match c
    case '&' => "&amp;"
    case '<' => "&lt;"
    case '>' => "&gt;"
    case '"' => "&quot;"
    case '\'' => "&#39;"
    case _ => [c]
  }

  /** One pass over the text. */
  function EscapeHtml(s: string): string {
    if s == "" then "" else Entity(s[0]) + EscapeHtml(s[1..])
  }

  /** `s.replace(/c/g, text)` */
  function ReplaceAll(s: string, c: char, text: string): string {
    if s == "" then "" else (if s[0] == c then text else [s[0]]) + ReplaceAll(s[1..], c, text)
  }

  /** Five replacements, one after the other. */
  function Esc(s: string): string {
    if s == "" then ""
    else
      ReplaceAll(ReplaceAll(ReplaceAll(ReplaceAll(ReplaceAll(s,
        '&', "&amp;"), '<', "&lt;"), '>', "&gt;"), '"', "&quot;"), '\'', "&#39;")
  }

  lemma {:induction false} ReplaceSplits(a: string, b: string, c: char, text: string)
    ensures ReplaceAll(a + b, c, text) == ReplaceAll(a, c, text) + ReplaceAll(b, c, text)
  {
    if a == "" {
      assert a + b == b;
    } else {
      assert (a + b)[1..] == a[1..] + b;
      ReplaceSplits(a[1..], b, c, text);
      var head := if a[0] == c then text else [a[0]];
      assert head + (ReplaceAll(a[1..], c, text) + ReplaceAll(b, c, text))
        == (head + ReplaceAll(a[1..], c, text)) + ReplaceAll(b, c, text);
    }
  }

  lemma {:induction false} ReplaceNone(s: string, c: char, text: string)
    requires c !in s
    ensures ReplaceAll(s, c, text) == s
  {
    if s != "" {
      assert s == [s[0]] + s[1..];
      ReplaceNone(s[1..], c, text);
    }
  }

  lemma EscSplits(a: string, b: string)
    ensures Esc(a + b) == Esc(a) + Esc(b)
  {
    var a1, b1 := ReplaceAll(a, '&', "&amp;"), ReplaceAll(b, '&', "&amp;");
    var a2, b2 := ReplaceAll(a1, '<', "&lt;"), ReplaceAll(b1, '<', "&lt;");
    var a3, b3 := ReplaceAll(a2, '>', "&gt;"), ReplaceAll(b2, '>', "&gt;");
    var a4, b4 := ReplaceAll(a3, '"', "&quot;"), ReplaceAll(b3, '"', "&quot;");
    ReplaceSplits(a, b, '&', "&amp;");
    ReplaceSplits(a1, b1, '<', "&lt;");
    ReplaceSplits(a2, b2, '>', "&gt;");
    ReplaceSplits(a3, b3, '"', "&quot;");
    ReplaceSplits(a4, b4, '\'', "&#39;");
    if a == "" { assert a + b == b; }
    if b == "" { assert a + b == a; }
  }

  lemma ReplaceOne(c: char, d: char, text: string)
    ensures ReplaceAll([c], d, text) == if c == d then text else [c]
  {
    assert [c][1..] == "";
    assert ReplaceAll("", d, text) == "";
    assert text + "" == text;
  }

  /** The later replacements leave an entity alone that has none of their characters. */
  lemma LaterLeave(e: string)
    requires '>' !in e && '"' !in e && '\'' !in e
    ensures ReplaceAll(ReplaceAll(ReplaceAll(e, '>', "&gt;"), '"', "&quot;"), '\'', "&#39;") == e
  {
    ReplaceNone(e, '>', "&gt;");
    ReplaceNone(e, '"', "&quot;");
    ReplaceNone(e, '\'', "&#39;");
  }

  /** The replacement of `&` comes first, so no later one meets its own text or an earlier one's. */
  lemma EscChar(c: char)
    ensures Esc([c]) == Entity(c)
  {
    ReplaceOne(c, '&', "&amp;");
    if c == '&' {
      ReplaceNone("&amp;", '<', "&lt;");
      LaterLeave("&amp;");
    } else {
      ReplaceOne(c, '<', "&lt;");
      if c == '<' {
        LaterLeave("&lt;");
      } else {
        EscLateChar(c);
      }
    }
  }

  lemma EscLateChar(c: char)
    requires c != '&' && c != '<'
    ensures ReplaceAll(ReplaceAll(ReplaceAll([c], '>', "&gt;"), '"', "&quot;"), '\'', "&#39;") == Entity(c)
  {
    ReplaceOne(c, '>', "&gt;");
    if c == '>' {
      ReplaceNone("&gt;", '"', "&quot;");
      ReplaceNone("&gt;", '\'', "&#39;");
    } else {
      ReplaceOne(c, '"', "&quot;");
      if c == '"' {
        ReplaceNone("&quot;", '\'', "&#39;");
      } else {
        ReplaceOne(c, '\'', "&#39;");
      }
    }
  }

  /** The five replacements and the single pass agree on every text. */
  lemma {:induction false} EscIsEscapeHtml(s: string)
    ensures Esc(s) == EscapeHtml(s)
  {
    if s != "" {
      assert s == [s[0]] + s[1..];
      EscSplits([s[0]], s[1..]);
      EscChar(s[0]);
      EscIsEscapeHtml(s[1..]);
    }
  }

  /** Escaped text cannot open or close a tag or an attribute value. */
  lemma {:induction false} NothingSpecialLeft(s: string)
    ensures forall c :: c in EscapeHtml(s) ==> c != '<' && c != '>' && c != '"' && c != '\''
  {
    if s != "" {
      NothingSpecialLeft(s[1..]);
      EntityPlain(s[0]);
    }
  }

  lemma EntityPlain(c: char)
    ensures forall d :: d in Entity(c) ==> d != '<' && d != '>' && d != '"' && d != '\''
  {}

  /** What a browser shows for the text. */
  function Shown(s: string): string {
    if s == "" then ""
    else if "&amp;" <= s then "&" + Shown(s[5..])
    else if "&lt;" <= s then "<" + Shown(s[4..])
    else if "&gt;" <= s then ">" + Shown(s[4..])
    else if "&quot;" <= s then "\"" + Shown(s[6..])
    else if "&#39;" <= s then "'" + Shown(s[5..])
    else [s[0]] + Shown(s[1..])
  }

  /** The entities are told apart by their second character. */
  lemma EntityStarts(c: char, rest: string)
    requires Entity(c) != [c]
    ensures
      var s := Entity(c) + rest;
      && ("&amp;" <= s <==> c == '&') && ("&lt;" <= s <==> c == '<') && ("&gt;" <= s <==> c == '>')
      && ("&quot;" <= s <==> c == '"') && ("&#39;" <= s <==> c == '\'')
  {
    var s := Entity(c) + rest;
    assert s[1] == Entity(c)[1];
  }

  lemma ShownStep(c: char, rest: string)
    ensures Shown(Entity(c) + rest) == [c] + Shown(rest)
  {
    var s := Entity(c) + rest;
    assert s[|Entity(c)|..] == rest;
    if Entity(c) == [c] { assert s[0] == c; } else { EntityStarts(c, rest); }
  }

  /** Escaped text is shown as the original. */
  lemma {:induction false} ShowsOriginal(s: string)
    ensures Shown(EscapeHtml(s)) == s
  {
    if s != "" {
      ShowsOriginal(s[1..]);
      ShownStep(s[0], EscapeHtml(s[1..]));
    }
  }

  lemma EscInjective(s: string, t: string)
    requires Esc(s) == Esc(t)
    ensures s == t
  {
    EscIsEscapeHtml(s);
    EscIsEscapeHtml(t);
    ShowsOriginal(s);
    ShowsOriginal(t);
  }
}
