/** The browser client's `escapeHtml`: every `&`, `<`, `>`, `"` and `'` of a text is
    replaced by its HTML entity before the text is placed in a page template. */
module HtmlEscape {

  /** The five characters the client's regular expression `[&<>"']` matches. */
  predicate IsSpecial(c: char) {
    c == '&' || c == '<' || c == '>' || c == '"' || c == '\''
  }

  /** The replacement the client's lookup table gives for one character. */
  function Entity(c: char): (r: string)
    ensures IsSpecial(c) ==> |r| > 1 && r[0] == '&'
    ensures !IsSpecial(c) ==> r == [c]
  {
    match c
    case '&' => "&amp;"
    case '<' => "&lt;"
    case '>' => "&gt;"
    case '"' => "&quot;"
    case '\'' => "&#039;"
    case _ => [c]
  }

  /** Characters that never appear in an escaped text. */
  predicate IsMarkup(c: char) {
    c == '<' || c == '>' || c == '"' || c == '\''
  }

  predicate HasSpecial(s: string) {
    exists k :: 0 <= k < |s| && IsSpecial(s[k])
  }

  /** `text.replace(/[&<>"']/g, m => map[m])`: each character in turn is replaced by
      its entity. The result is free of markup characters, and it is longer than the
      input exactly when the input held one of the five characters. */
  function EscapeHtml(s: string): (r: string)
    ensures forall k :: 0 <= k < |r| ==> !IsMarkup(r[k])
    ensures |r| >= |s|
    ensures |r| == |s| <==> !HasSpecial(s)
  {
    if s == [] then []
    else
      var e := Entity(s[0]);
      var rest := EscapeHtml(s[1..]);
      assert forall k :: 0 <= k < |e| ==> !IsMarkup(e[k]);
      assert HasSpecial(s) <==> IsSpecial(s[0]) || HasSpecial(s[1..]) by {
        if HasSpecial(s[1..]) {
          var k :| 0 <= k < |s[1..]| && IsSpecial(s[1..][k]);
          assert s[k + 1] == s[1..][k];
        }
        if HasSpecial(s) && !IsSpecial(s[0]) {
          var k :| 0 <= k < |s| && IsSpecial(s[k]);
          assert s[1..][k - 1] == s[k];
        }
      }
      e + rest
  }

  /** Decoding of the five entities (the inverse a browser applies when it reads the
      page); any other character stands for itself. */
  function Unescape(s: string): string
  {
    if s == [] then []
    else if "&amp;" <= s then "&" + Unescape(s[5..])
    else if "&lt;" <= s then "<" + Unescape(s[4..])
    else if "&gt;" <= s then ">" + Unescape(s[4..])
    else if "&quot;" <= s then "\"" + Unescape(s[6..])
    else if "&#039;" <= s then "'" + Unescape(s[6..])
    else [s[0]] + Unescape(s[1..])
  }

  lemma UnescapeAmp(t: string)
    ensures Unescape("&amp;" + t) == "&" + Unescape(t)
  {
    var s := "&amp;" + t;
    assert "&amp;" <= s && s[5..] == t;
  }

  lemma UnescapeLt(t: string)
    ensures Unescape("&lt;" + t) == "<" + Unescape(t)
  {
    var s := "&lt;" + t;
    assert s[1] == 'l' && "&lt;" <= s && s[4..] == t;
  }

  lemma UnescapeGt(t: string)
    ensures Unescape("&gt;" + t) == ">" + Unescape(t)
  {
    var s := "&gt;" + t;
    assert s[1] == 'g' && "&gt;" <= s && s[4..] == t;
  }

  lemma UnescapeQuot(t: string)
    ensures Unescape("&quot;" + t) == "\"" + Unescape(t)
  {
    var s := "&quot;" + t;
    assert s[1] == 'q' && "&quot;" <= s && s[6..] == t;
  }

  lemma UnescapeApos(t: string)
    ensures Unescape("&#039;" + t) == "'" + Unescape(t)
  {
    var s := "&#039;" + t;
    assert s[1] == '#' && "&#039;" <= s && s[6..] == t;
  }

  lemma UnescapePlain(c: char, t: string)
    requires c != '&'
    ensures Unescape([c] + t) == [c] + Unescape(t)
  {
    var s := [c] + t;
    assert s[0] == c && s[1..] == t;
  }

  /** Each entity decodes back to its character, and decoding goes on right after it. */
  lemma UnescapeEntity(c: char, t: string)
    ensures Unescape(Entity(c) + t) == [c] + Unescape(t)
  {
    match c
    case '&' => UnescapeAmp(t);
    case '<' => UnescapeLt(t);
    case '>' => UnescapeGt(t);
    case '"' => UnescapeQuot(t);
    case '\'' => UnescapeApos(t);
    case _ => UnescapePlain(c, t);
  }

  /** Escaping loses nothing: the browser reads back exactly the original text. */
  lemma {:induction false} UnescapeEscape(s: string)
    ensures Unescape(EscapeHtml(s)) == s
  {
    if s != [] {
      UnescapeEntity(s[0], EscapeHtml(s[1..]));
      UnescapeEscape(s[1..]);
      assert s == [s[0]] + s[1..];
    }
  }

  /** Hence two different texts never escape to the same markup. */
  lemma EscapeInjective(s: string, t: string)
    requires EscapeHtml(s) == EscapeHtml(t)
    ensures s == t
  {
    UnescapeEscape(s);
    UnescapeEscape(t);
  }

  /** A text without the five characters is shown as it is. */
  lemma {:induction false} EscapeIdentity(s: string)
    requires !HasSpecial(s)
    ensures EscapeHtml(s) == s
  {
    if s != [] {
      EscapeIdentity(s[1..]);
      assert s == [s[0]] + s[1..];
    }
  }
}
