/** `escapeHtml`, the same function in the services page and the branches
    page: each of `& < > " '` becomes its entity, every other character is
    kept. */
module Html {

  function EscapeChar(c: char): (r: string)
    ensures c !in "&<>\"'" ==> r == [c]
  {
    match c
    case '&' => "&amp;"
    case '<' => "&lt;"
    case '>' => "&gt;"
    case '"' => "&quot;"
    case '\'' => "&#039;"
    case _ => [c]
  }

  function EscapeHtml(text: string): (r: string)
    ensures |r| >= |text|
  {
    if text == [] then [] else EscapeChar(text[0]) + EscapeHtml(text[1..])
  }

  /** The inverse reading of the five entities; any other character stands
      for itself. */
  function UnescapeHtml(t: string): string
    decreases |t|
  {
    if t == [] then []
    else if "&amp;" <= t then "&" + UnescapeHtml(t[5..])
    else if "&lt;" <= t then "<" + UnescapeHtml(t[4..])
    else if "&gt;" <= t then ">" + UnescapeHtml(t[4..])
    else if "&quot;" <= t then "\"" + UnescapeHtml(t[6..])
    else if "&#039;" <= t then "'" + UnescapeHtml(t[6..])
    else [t[0]] + UnescapeHtml(t[1..])
  }

  /** Reading back one escaped character, whatever follows it. */
  lemma UnescapeEscapedChar(c: char, rest: string)
    ensures UnescapeHtml(EscapeChar(c) + rest) == [c] + UnescapeHtml(rest)
  {
    if c in "&<>\"'" {
      UnescapeEntity(c, rest);
    } else {
      var t := EscapeChar(c) + rest;
      assert t[0] == c && t[1..] == rest;
    }
  }

  lemma UnescapeEntity(c: char, rest: string)
    requires c in "&<>\"'"
    ensures UnescapeHtml(EscapeChar(c) + rest) == [c] + UnescapeHtml(rest)
  {
    var t := EscapeChar(c) + rest;
    if c == '&' {
      assert "&amp;" <= t && t[5..] == rest;
    } else if c == '<' {
      UnescapeLess(rest);
    } else if c == '>' {
      UnescapeGreater(rest);
    } else if c == '"' {
      UnescapeQuote(rest);
    } else {
      UnescapeApostrophe(rest);
    }
  }

  lemma UnescapeLess(rest: string)
    ensures UnescapeHtml("&lt;" + rest) == "<" + UnescapeHtml(rest)
  {
    var t := "&lt;" + rest;
    assert t[1] == 'l';
    assert !("&amp;" <= t);
    assert "&lt;" <= t && t[4..] == rest;
  }

  lemma UnescapeGreater(rest: string)
    ensures UnescapeHtml("&gt;" + rest) == ">" + UnescapeHtml(rest)
  {
    var t := "&gt;" + rest;
    assert t[1] == 'g';
    assert !("&amp;" <= t) && !("&lt;" <= t);
    assert "&gt;" <= t && t[4..] == rest;
  }

  lemma UnescapeQuote(rest: string)
    ensures UnescapeHtml("&quot;" + rest) == "\"" + UnescapeHtml(rest)
  {
    var t := "&quot;" + rest;
    assert t[1] == 'q';
    assert !("&amp;" <= t) && !("&lt;" <= t) && !("&gt;" <= t);
    assert "&quot;" <= t && t[6..] == rest;
  }

  lemma UnescapeApostrophe(rest: string)
    ensures UnescapeHtml("&#039;" + rest) == "'" + UnescapeHtml(rest)
  {
    var t := "&#039;" + rest;
    assert t[1] == '#';
    assert !("&amp;" <= t) && !("&lt;" <= t) && !("&gt;" <= t) && !("&quot;" <= t);
    assert "&#039;" <= t && t[6..] == rest;
  }

  /** Escaping loses nothing: reading the entities back gives the original
      text. */
  lemma {:induction false} EscapeRoundTrip(text: string)
    ensures UnescapeHtml(EscapeHtml(text)) == text
    decreases |text|
  {
    if text != [] {
      EscapeRoundTrip(text[1..]);
      UnescapeEscapedChar(text[0], EscapeHtml(text[1..]));
    }
  }

  /** The escaped text holds none of the four markup characters. */
  lemma {:induction false} EscapeIsSafe(text: string)
    ensures forall i :: 0 <= i < |EscapeHtml(text)| ==> EscapeHtml(text)[i] !in "<>\"'"
    decreases |text|
  {
    if text != [] {
      EscapeIsSafe(text[1..]);
      var e, rest := EscapeChar(text[0]), EscapeHtml(text[1..]);
      EscapeCharSafe(text[0]);
      var r := EscapeHtml(text);
      assert r == e + rest;
      forall i | 0 <= i < |r|
        ensures r[i] !in "<>\"'"
      {
        if i >= |e| {
          assert r[i] == rest[i - |e|];
        }
      }
    }
  }

  lemma EscapeCharSafe(c: char)
    ensures forall i :: 0 <= i < |EscapeChar(c)| ==> EscapeChar(c)[i] !in "<>\"'"
  {
  }

  /** A text with no character that needs escaping is left unchanged. */
  lemma {:induction false} EscapeKeepsPlain(text: string)
    requires forall i :: 0 <= i < |text| ==> text[i] !in "&<>\"'"
    ensures EscapeHtml(text) == text
    decreases |text|
  {
    if text != [] {
      EscapeKeepsPlain(text[1..]);
      assert text == [text[0]] + text[1..];
    }
  }
}
