/**
 * `escapeHTML` of lib/escape_html.ts: five global single-character
 * replacements applied one after the other, ampersand first.
 */
module EscapeHtml {

  /** `s.replace(/c/g, rep)` for a pattern that is one literal character:
      every occurrence of `c`, scanned left to right, becomes `rep`. */
  function ReplaceAll(s: string, c: char, rep: string): string {
    if s == [] then [] else (if s[0] == c then rep else [s[0]]) + ReplaceAll(s[1..], c, rep)
  }

  /** A replacement that does not reintroduce `c` removes every `c`, and a
      text without `c` is left alone. */
  lemma {:induction false} ReplaceAllShape(s: string, c: char, rep: string)
    ensures c !in rep ==> c !in ReplaceAll(s, c, rep)
    ensures c !in s ==> ReplaceAll(s, c, rep) == s
  {
    if s != [] {
      ReplaceAllShape(s[1..], c, rep);
      assert forall x :: x in s[1..] ==> x in s;
    }
  }

  lemma {:induction false} ReplaceAllAppend(a: string, b: string, c: char, rep: string)
    ensures ReplaceAll(a + b, c, rep) == ReplaceAll(a, c, rep) + ReplaceAll(b, c, rep)
  {
    if a == [] {
      assert a + b == b;
    } else {
      assert (a + b)[1..] == a[1..] + b;
      ReplaceAllAppend(a[1..], b, c, rep);
    }
  }

  /** The source's chain of replacements. The ampersand is replaced first so
      that the ampersands the later replacements insert stay as they are. */
  function EscapeHTML(htmlText: string): string {
    ReplaceAll(
      ReplaceAll(
        ReplaceAll(
          ReplaceAll(
            ReplaceAll(htmlText, '&', "&amp;"),
            '"', "&quot;"),
          '\'', "&#39;"),
        '<', "&lt;"),
      '>', "&gt;")
  }

  /** The default argument: escaping the empty string gives the empty string. */
  lemma EscapeEmpty()
    ensures EscapeHTML("") == ""
  {
  }

  /** A text without any of the five special characters is returned as it is. */
  lemma PlainTextUnescaped(s: string)
    requires '&' !in s && '"' !in s && '\'' !in s && '<' !in s && '>' !in s
    ensures EscapeHTML(s) == s
  {
    ReplaceAllShape(s, '&', "&amp;");
    ReplaceAllShape(s, '"', "&quot;");
    ReplaceAllShape(s, '\'', "&#39;");
    ReplaceAllShape(s, '<', "&lt;");
    ReplaceAllShape(s, '>', "&gt;");
  }

  /** The entity one character is replaced by, or the character itself. */
  function EntityFor(c: char): string {
    match c
    case '&' => "&amp;"
    case '"' => "&quot;"
    case '\'' => "&#39;"
    case '<' => "&lt;"
    case '>' => "&gt;"
    case _ => [c]
  }

  predicate IsSpecial(c: char) {
    c == '&' || c == '"' || c == '\'' || c == '<' || c == '>'
  }

  /** The reference definition: one left-to-right pass mapping each character
      to its entity. */
  function EscapeEachChar(s: string): string {
    if s == [] then [] else EntityFor(s[0]) + EscapeEachChar(s[1..])
  }

  /** Escaping distributes over concatenation. */
  lemma EscapeAppend(a: string, b: string)
    ensures EscapeHTML(a + b) == EscapeHTML(a) + EscapeHTML(b)
  {
    var s1a, s1b := ReplaceAll(a, '&', "&amp;"), ReplaceAll(b, '&', "&amp;");
    ReplaceAllAppend(a, b, '&', "&amp;");
    var s2a, s2b := ReplaceAll(s1a, '"', "&quot;"), ReplaceAll(s1b, '"', "&quot;");
    ReplaceAllAppend(s1a, s1b, '"', "&quot;");
    var s3a, s3b := ReplaceAll(s2a, '\'', "&#39;"), ReplaceAll(s2b, '\'', "&#39;");
    ReplaceAllAppend(s2a, s2b, '\'', "&#39;");
    var s4a, s4b := ReplaceAll(s3a, '<', "&lt;"), ReplaceAll(s3b, '<', "&lt;");
    ReplaceAllAppend(s3a, s3b, '<', "&lt;");
    ReplaceAllAppend(s4a, s4b, '>', "&gt;");
  }

  lemma ReplaceOne(c: char, d: char, rep: string)
    ensures ReplaceAll([c], d, rep) == if c == d then rep else [c]
  {
    assert [c][1..] == [];
  }

  /** The passes after the ampersand pass leave a text without the later
      special characters alone. */
  lemma LaterPassesKeep(t: string)
    requires '"' !in t && '\'' !in t && '<' !in t && '>' !in t
    ensures ReplaceAll(ReplaceAll(ReplaceAll(ReplaceAll(t, '"', "&quot;"), '\'', "&#39;"), '<', "&lt;"), '>', "&gt;") == t
  {
    ReplaceAllShape(t, '"', "&quot;");
    ReplaceAllShape(t, '\'', "&#39;");
    ReplaceAllShape(t, '<', "&lt;");
    ReplaceAllShape(t, '>', "&gt;");
  }

  // The five special characters, one at a time.

  lemma EscapeAmpersand(s: string)
    requires s == "&"
    ensures EscapeHTML(s) == "&amp;"
  {
    ReplaceOne('&', '&', "&amp;");
    var t := ReplaceAll(s, '&', "&amp;");
    LaterPassesKeep(t);
  }

  lemma EscapeDoubleQuote(s: string)
    requires s == "\""
    ensures EscapeHTML(s) == "&quot;"
  {
    ReplaceOne('"', '&', "&amp;");
    ReplaceOne('"', '"', "&quot;");
    var t := ReplaceAll(ReplaceAll(s, '&', "&amp;"), '"', "&quot;");
    QuotKeeps(t);
  }

  /** The passes after the double-quote pass leave `&quot;` alone. */
  lemma QuotKeeps(t: string)
    requires t == "&quot;"
    ensures ReplaceAll(ReplaceAll(ReplaceAll(t, '\'', "&#39;"), '<', "&lt;"), '>', "&gt;") == t
  {
    ReplaceAllShape(t, '\'', "&#39;");
    ReplaceAllShape(t, '<', "&lt;");
    ReplaceAllShape(t, '>', "&gt;");
  }

  lemma EscapeSingleQuote(s: string)
    requires s == "'"
    ensures EscapeHTML(s) == "&#39;"
  {
    ReplaceOne('\'', '&', "&amp;");
    ReplaceOne('\'', '"', "&quot;");
    ReplaceOne('\'', '\'', "&#39;");
    var t := ReplaceAll(ReplaceAll(ReplaceAll(s, '&', "&amp;"), '"', "&quot;"), '\'', "&#39;");
    AposKeeps(t);
  }

  /** The passes after the single-quote pass leave `&#39;` alone. */
  lemma AposKeeps(t: string)
    requires t == "&#39;"
    ensures ReplaceAll(ReplaceAll(t, '<', "&lt;"), '>', "&gt;") == t
  {
    ReplaceAllShape(t, '<', "&lt;");
    ReplaceAllShape(t, '>', "&gt;");
  }

  lemma EscapeOneChar(c: char)
    ensures EscapeHTML([c]) == EntityFor(c)
  {
    if c == '&' {
      EscapeAmpersand([c]);
    } else if c == '"' {
      EscapeDoubleQuote([c]);
    } else if c == '\'' {
      EscapeSingleQuote([c]);
    } else if c == '<' {
      ReplaceOne(c, '&', "&amp;");
      ReplaceOne(c, '"', "&quot;");
      ReplaceOne(c, '\'', "&#39;");
      ReplaceOne(c, '<', "&lt;");
      ReplaceAllShape(ReplaceAll([c], '<', "&lt;"), '>', "&gt;");
    } else {
      ReplaceOne(c, '&', "&amp;");
      ReplaceOne(c, '"', "&quot;");
      ReplaceOne(c, '\'', "&#39;");
      ReplaceOne(c, '<', "&lt;");
      ReplaceOne(c, '>', "&gt;");
    }
  }

  /** The five chained replacements equal the one-pass character map, so no
      inserted entity is escaped twice. */
  lemma {:induction false} EscapeIsCharMap(s: string)
    ensures EscapeHTML(s) == EscapeEachChar(s)
  {
    if s != [] {
      assert s == [s[0]] + s[1..];
      EscapeAppend([s[0]], s[1..]);
      EscapeOneChar(s[0]);
      EscapeIsCharMap(s[1..]);
    }
  }

  lemma {:induction false} EachCharNoMarkup(s: string)
    ensures '<' !in EscapeEachChar(s) && '>' !in EscapeEachChar(s)
    ensures '"' !in EscapeEachChar(s) && '\'' !in EscapeEachChar(s)
  {
    if s != [] {
      EachCharNoMarkup(s[1..]);
    }
  }

  /** Escaped text contains no angle bracket and no quote of either kind. */
  lemma EscapeLeavesNoMarkup(s: string)
    ensures '<' !in EscapeHTML(s) && '>' !in EscapeHTML(s)
    ensures '"' !in EscapeHTML(s) && '\'' !in EscapeHTML(s)
  {
    EscapeIsCharMap(s);
    EachCharNoMarkup(s);
  }

  function Count(s: string, c: char): nat {
    if s == [] then 0 else (if s[0] == c then 1 else 0) + Count(s[1..], c)
  }

  lemma {:induction false} EachCharLength(s: string)
    ensures |EscapeEachChar(s)| == |s| + 4 * Count(s, '&') + 5 * Count(s, '"')
                                 + 4 * Count(s, '\'') + 3 * Count(s, '<') + 3 * Count(s, '>')
  {
    if s != [] {
      EachCharLength(s[1..]);
    }
  }

  /** Each ampersand grows the text by 4, each double quote by 5, each single
      quote by 4 and each angle bracket by 3. */
  lemma EscapeLength(s: string)
    ensures |EscapeHTML(s)| == |s| + 4 * Count(s, '&') + 5 * Count(s, '"')
                              + 4 * Count(s, '\'') + 3 * Count(s, '<') + 3 * Count(s, '>')
  {
    EscapeIsCharMap(s);
    EachCharLength(s);
  }

  lemma {:induction false} NoSpecialMeansNoCount(s: string)
    ensures (forall i :: 0 <= i < |s| ==> !IsSpecial(s[i])) <==>
            Count(s, '&') + Count(s, '"') + Count(s, '\'') + Count(s, '<') + Count(s, '>') == 0
  {
    if s != [] {
      NoSpecialMeansNoCount(s[1..]);
      assert forall i :: 1 <= i < |s| ==> s[i] == s[1..][i - 1];
    }
  }

  /** A text is returned unchanged exactly when it holds none of the five
      special characters; in particular the default argument `""` gives `""`. */
  lemma EscapeUnchangedIff(s: string)
    ensures EscapeHTML(s) == s <==> forall i :: 0 <= i < |s| ==> !IsSpecial(s[i])
  {
    EscapeLength(s);
    NoSpecialMeansNoCount(s);
    if forall i :: 0 <= i < |s| ==> !IsSpecial(s[i]) {
      assert '&' !in s && '"' !in s && '\'' !in s && '<' !in s && '>' !in s;
      PlainTextUnescaped(s);
    }
  }

  lemma {:induction false} EachCharAppend(a: string, b: string)
    ensures EscapeEachChar(a + b) == EscapeEachChar(a) + EscapeEachChar(b)
  {
    if a == [] {
      assert a + b == b;
    } else {
      assert (a + b)[1..] == a[1..] + b;
      EachCharAppend(a[1..], b);
    }
  }

  /** The reference map leaves a text without special characters alone. */
  lemma {:induction false} EachCharPlain(s: string)
    requires '&' !in s && '"' !in s && '\'' !in s && '<' !in s && '>' !in s
    ensures EscapeEachChar(s) == s
  {
    if s != [] {
      assert s[0] in s;
      assert forall c :: c in s[1..] ==> c in s;
      EachCharPlain(s[1..]);
    }
  }

  /** A plain word between two characters: only the two are mapped. */
  lemma EachCharAround(p: string, left: char, word: string, right: char)
    requires p == [left] + word + [right]
    requires '&' !in word && '"' !in word && '\'' !in word && '<' !in word && '>' !in word
    ensures EscapeEachChar(p) == EntityFor(left) + word + EntityFor(right)
  {
    EachCharAppend([left] + word, [right]);
    EachCharAppend([left], word);
    EachCharPlain(word);
    assert EscapeEachChar([left]) == EntityFor(left) + EscapeEachChar([]);
    assert EscapeEachChar([right]) == EntityFor(right) + EscapeEachChar([]);
  }

  /** Eight pieces mapped one by one make the mapped whole. */
  lemma EachCharEight(p1: string, p2: string, p3: string, p4: string,
                      p5: string, p6: string, p7: string, p8: string)
    ensures EscapeEachChar(p1 + p2 + p3 + p4 + p5 + p6 + p7 + p8)
         == EscapeEachChar(p1) + EscapeEachChar(p2) + EscapeEachChar(p3) + EscapeEachChar(p4)
          + EscapeEachChar(p5) + EscapeEachChar(p6) + EscapeEachChar(p7) + EscapeEachChar(p8)
  {
    EachCharAppend(p1 + p2 + p3 + p4 + p5 + p6 + p7, p8);
    EachCharAppend(p1 + p2 + p3 + p4 + p5 + p6, p7);
    EachCharAppend(p1 + p2 + p3 + p4 + p5, p6);
    EachCharAppend(p1 + p2 + p3 + p4, p5);
    EachCharAppend(p1 + p2 + p3, p4);
    EachCharAppend(p1 + p2, p3);
    EachCharAppend(p1, p2);
  }

  /** Escaping text shaped like the vector below: four tags,
      a quoted word and plain runs between them. */
  lemma EachCharVector(htmlString: string, w1: string, p2: string, w3: string, w4: string,
                       p5: string, w6: string, p7: string, w8: string)
    requires '&' !in w1 && '"' !in w1 && '\'' !in w1 && '<' !in w1 && '>' !in w1
    requires '&' !in p2 && '"' !in p2 && '\'' !in p2 && '<' !in p2 && '>' !in p2
    requires '&' !in w3 && '"' !in w3 && '\'' !in w3 && '<' !in w3 && '>' !in w3
    requires '&' !in w4 && '"' !in w4 && '\'' !in w4 && '<' !in w4 && '>' !in w4
    requires '&' !in p5 && '"' !in p5 && '\'' !in p5 && '<' !in p5 && '>' !in p5
    requires '&' !in w6 && '"' !in w6 && '\'' !in w6 && '<' !in w6 && '>' !in w6
    requires '&' !in p7 && '"' !in p7 && '\'' !in p7 && '<' !in p7 && '>' !in p7
    requires '&' !in w8 && '"' !in w8 && '\'' !in w8 && '<' !in w8 && '>' !in w8
    requires htmlString == (['<'] + w1 + ['>']) + p2 + (['<'] + w3 + ['>']) + (['<'] + w4 + ['>'])
                           + p5 + (['"'] + w6 + ['"']) + p7 + (['<'] + w8 + ['>'])
    ensures EscapeHTML(htmlString) == ("&lt;" + w1 + "&gt;") + p2 + ("&lt;" + w3 + "&gt;")
                                        + ("&lt;" + w4 + "&gt;") + p5 + ("&quot;" + w6 + "&quot;")
                                        + p7 + ("&lt;" + w8 + "&gt;")
  {
    var t1, t3, t4, q6, t8 := ['<'] + w1 + ['>'], ['<'] + w3 + ['>'], ['<'] + w4 + ['>'],
                              ['"'] + w6 + ['"'], ['<'] + w8 + ['>'];
    var e1, e3, e4, f6, e8 := "&lt;" + w1 + "&gt;", "&lt;" + w3 + "&gt;", "&lt;" + w4 + "&gt;",
                              "&quot;" + w6 + "&quot;", "&lt;" + w8 + "&gt;";
    assert EscapeEachChar(t1) == e1 by { EachCharAround(t1, '<', w1, '>'); }
    assert EscapeEachChar(p2) == p2 by { EachCharPlain(p2); }
    assert EscapeEachChar(t3) == e3 by { EachCharAround(t3, '<', w3, '>'); }
    assert EscapeEachChar(t4) == e4 by { EachCharAround(t4, '<', w4, '>'); }
    assert EscapeEachChar(p5) == p5 by { EachCharPlain(p5); }
    assert EscapeEachChar(q6) == f6 by { EachCharAround(q6, '"', w6, '"'); }
    assert EscapeEachChar(p7) == p7 by { EachCharPlain(p7); }
    assert EscapeEachChar(t8) == e8 by { EachCharAround(t8, '<', w8, '>'); }
    EachCharEight(t1, p2, t3, t4, p5, q6, p7, t8);
    EscapeIsCharMap(htmlString);
  }

  /** The vector below, cut into its tags, its quoted word and the plain runs. */
  lemma TestVectorPieces(htmlString: string)
    requires htmlString == "<h1>" + "Fubar" + "</h1>" + "<script>"
                          + "alert(" + "\"hello\"" + ")" + "</script>"
    ensures htmlString == (['<'] + "h1" + ['>']) + "Fubar" + (['<'] + "/h1" + ['>'])
                          + (['<'] + "script" + ['>']) + "alert(" + (['"'] + "hello" + ['"'])
                          + ")" + (['<'] + "/script" + ['>'])
  {
  }

  /** The escaped vector below, glued from its escaped pieces. */
  lemma TestVectorEscapedPieces(escaped: string)
    requires escaped == ("&lt;" + "h1" + "&gt;") + "Fubar" + ("&lt;" + "/h1" + "&gt;")
                        + ("&lt;" + "script" + "&gt;") + "alert(" + ("&quot;" + "hello" + "&quot;")
                        + ")" + ("&lt;" + "/script" + "&gt;")
    ensures escaped == "&lt;h1&gt;" + "Fubar" + "&lt;/h1&gt;" + "&lt;script&gt;"
                       + "alert(" + "&quot;hello&quot;" + ")" + "&lt;/script&gt;"
  {
  }

  /** The vector of lib/escape_html_test.ts,
      `<h1>Fubar</h1><script>alert("hello")</script>`, written as its tags,
      its quoted word and the plain runs between them. */
  lemma EscapeTestVector(htmlString: string)
    requires htmlString == "<h1>" + "Fubar" + "</h1>" + "<script>"
                          + "alert(" + "\"hello\"" + ")" + "</script>"
    ensures EscapeHTML(htmlString) == "&lt;h1&gt;" + "Fubar" + "&lt;/h1&gt;" + "&lt;script&gt;"
                                   + "alert(" + "&quot;hello&quot;" + ")" + "&lt;/script&gt;"
  {
    TestVectorPieces(htmlString);
    EachCharVector(htmlString, "h1", "Fubar", "/h1", "script", "alert(", "hello", ")", "/script");
    TestVectorEscapedPieces(EscapeHTML(htmlString));
  }
}
