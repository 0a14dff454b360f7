/** The part of HTML character-reference handling the analyzer relies on:
    the five references that `html.escape(s, quote=True)` produces. */
module Html {
  import opened Text

  /** `html.escape(s)`: `&`, `<`, `>`, `"` and `'` become references. */
  function Escape(s: string): string
  {
    if s == [] then [] else EscapeChar(s[0]) + Escape(s[1..])
  }

  function EscapeChar(c: char): string
  {
    match c
    case '&' => "&amp;"
    case '<' => "&lt;"
    case '>' => "&gt;"
    case '"' => "&quot;"
    case '\'' => "&#x27;"
    case _ => [c]
  }

  /** `html.unescape(s)` for the references `Escape` produces; any other text,
      including other references, is kept as it is. */
  function Unescape(s: string): string
    decreases |s|
  {
    if s == [] then []
    else if OccursAt(s, "&amp;", 0) then "&" + Unescape(s[5..])
    else if OccursAt(s, "&lt;", 0) then "<" + Unescape(s[4..])
    else if OccursAt(s, "&gt;", 0) then ">" + Unescape(s[4..])
    else if OccursAt(s, "&quot;", 0) then "\"" + Unescape(s[6..])
    else if OccursAt(s, "&#x27;", 0) then "'" + Unescape(s[6..])
    else [s[0]] + Unescape(s[1..])
  }

  /** Text without `&` is left unchanged. */
  lemma {:induction false} UnescapePlain(s: string)
    requires '&' !in s
    ensures Unescape(s) == s
  {
    if s != [] {
      UnescapeCopies(s);
      assert '&' !in s[1..];
      UnescapePlain(s[1..]);
    }
  }

  /** A character other than `&` starts no reference and is copied. */
  lemma UnescapeCopies(s: string)
    requires s != [] && s[0] != '&'
    ensures Unescape(s) == [s[0]] + Unescape(s[1..])
  {
    assert forall k :: 1 <= k <= |s| ==> s[..k][0] == s[0];
    assert !OccursAt(s, "&amp;", 0) && !OccursAt(s, "&lt;", 0) && !OccursAt(s, "&gt;", 0);
    assert !OccursAt(s, "&quot;", 0) && !OccursAt(s, "&#x27;", 0);
  }

  /** Unescaping undoes escaping. */
  lemma {:induction false} UnescapeEscape(s: string)
    ensures Unescape(Escape(s)) == s
  {
    if s != [] {
      UnescapeEscape(s[1..]);
      UnescapeEscapeChar(s[0], Escape(s[1..]));
      assert s == [s[0]] + s[1..];
    }
  }

  lemma UnescapeEscapeChar(c: char, rest: string)
    ensures Unescape(EscapeChar(c) + rest) == [c] + Unescape(rest)
  {
    match c
    case '&' => UnescapeAmp(rest);
    case '<' => UnescapeLt(rest);
    case '>' => UnescapeGt(rest);
    case '"' => UnescapeQuot(rest);
    case '\'' => UnescapeApos(rest);
    case _ => UnescapeOther(c, rest);
  }

  lemma UnescapeAmp(rest: string)
    ensures Unescape("&amp;" + rest) == "&" + Unescape(rest)
  {
    var e := "&amp;" + rest;
    assert e[..5] == "&amp;" && e[5..] == rest;
  }

  lemma UnescapeLt(rest: string)
    ensures Unescape("&lt;" + rest) == "<" + Unescape(rest)
  {
    var e := "&lt;" + rest;
    assert e[1] == 'l';
    assert e[..4] == "&lt;" && e[4..] == rest;
  }

  lemma UnescapeGt(rest: string)
    ensures Unescape("&gt;" + rest) == ">" + Unescape(rest)
  {
    var e := "&gt;" + rest;
    assert e[1] == 'g';
    assert e[..4] == "&gt;" && e[4..] == rest;
  }

  lemma UnescapeQuot(rest: string)
    ensures Unescape("&quot;" + rest) == "\"" + Unescape(rest)
  {
    var e := "&quot;" + rest;
    assert e[1] == 'q';
    assert e[..6] == "&quot;" && e[6..] == rest;
  }

  lemma UnescapeApos(rest: string)
    ensures Unescape("&#x27;" + rest) == "'" + Unescape(rest)
  {
    var e := "&#x27;" + rest;
    assert e[1] == '#';
    assert e[..6] == "&#x27;" && e[6..] == rest;
  }

  lemma UnescapeOther(c: char, rest: string)
    requires c !in "&<>\"'"
    ensures Unescape([c] + rest) == [c] + Unescape(rest)
  {
    var e := [c] + rest;
    UnescapeCopies(e);
    assert e[1..] == rest;
  }
}
