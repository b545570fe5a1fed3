/**
 * `minify` of lib/minify.ts: five global regular-expression replacements
 * applied in order. Each pass is a left-to-right scan that, like a global
 * `replace`, resumes after the end of every match.
 */
module Minify {
  import opened JsString

  predicate NoTab(s: string) {
    forall i :: 0 <= i < |s| ==> s[i] != '\t'
  }

  /** Every whitespace character is a plain space. */
  predicate SpacesOnly(s: string) {
    forall i :: 0 <= i < |s| && IsWhitespace(s[i]) ==> s[i] == ' '
  }

  /** No two neighbouring characters `a`, `b` have `bad(a, b)`. */
  predicate NoAdjacent(s: string, bad: (char, char) -> bool) {
    forall i :: 0 < i < |s| ==> !bad(s[i - 1], s[i])
  }

  predicate BothSpaces(a: char, b: char) { IsWhitespace(a) && IsWhitespace(b) }

  predicate SpaceThenClose(a: char, b: char) { IsWhitespace(a) && b == '>' }

  predicate CloseThenSpace(a: char, b: char) { a == '>' && IsWhitespace(b) }

  /** No two whitespace characters stand next to each other. */
  predicate NoDoubleSpace(s: string) { NoAdjacent(s, BothSpaces) }

  /** No whitespace character immediately precedes a `>`. */
  predicate NoSpaceBeforeClose(s: string) { NoAdjacent(s, SpaceThenClose) }

  /** No whitespace character immediately follows a `>`. */
  predicate NoSpaceAfterClose(s: string) { NoAdjacent(s, CloseThenSpace) }

  lemma NoAdjacentCons(c: char, x: string, bad: (char, char) -> bool)
    ensures NoAdjacent([c] + x, bad) <==> NoAdjacent(x, bad) && (x == [] || !bad(c, x[0]))
  {
    var s := [c] + x;
    if NoAdjacent(s, bad) {
      forall i | 0 < i < |x|
        ensures !bad(x[i - 1], x[i])
      {
        assert x[i - 1] == s[i] && x[i] == s[i + 1];
      }
      if x != [] {
        assert s[0] == c && s[1] == x[0];
      }
    }
    if NoAdjacent(x, bad) && (x == [] || !bad(c, x[0])) {
      forall i | 0 < i < |s|
        ensures !bad(s[i - 1], s[i])
      {
        if i > 1 {
          assert s[i - 1] == x[i - 2] && s[i] == x[i - 1];
        }
      }
    }
  }

  lemma NoAdjacentSuffix(s: string, k: nat, bad: (char, char) -> bool)
    requires k <= |s| && NoAdjacent(s, bad)
    ensures NoAdjacent(s[k..], bad)
  {
    forall i | 0 < i < |s| - k
      ensures !bad(s[k..][i - 1], s[k..][i])
    {
      assert s[k..][i - 1] == s[k + i - 1] && s[k..][i] == s[k + i];
    }
  }

  /** The shape the first three passes set up and the last two keep. */
  predicate Spaced(s: string) {
    NoTab(s) && SpacesOnly(s) && NoDoubleSpace(s) && NoSpaceBeforeClose(s)
  }

  /** The shape every output of `minify` has. */
  predicate Minified(s: string) {
    Spaced(s) && NoSpaceAfterClose(s)
  }

  lemma SpacedCons(c: char, x: string)
    ensures Spaced([c] + x) <==>
      Spaced(x) && c != '\t' && (IsWhitespace(c) ==> c == ' ')
      && (x == [] || (!BothSpaces(c, x[0]) && !SpaceThenClose(c, x[0])))
  {
    NoAdjacentCons(c, x, BothSpaces);
    NoAdjacentCons(c, x, SpaceThenClose);
    var s := [c] + x;
    assert s[0] == c && s[1..] == x;
    assert forall i :: 0 < i < |s| ==> s[i] == x[i - 1];
    assert SpacesOnly(s) ==> SpacesOnly(x) by {
      if SpacesOnly(s) {
        forall i | 0 <= i < |x| && IsWhitespace(x[i]) ensures x[i] == ' ' {
          assert x[i] == s[i + 1];
        }
      }
    }
  }

  lemma SpacedSuffix(s: string, k: nat)
    requires k <= |s| && Spaced(s)
    ensures Spaced(s[k..])
  {
    NoAdjacentSuffix(s, k, BothSpaces);
    NoAdjacentSuffix(s, k, SpaceThenClose);
    assert forall i :: 0 <= i < |s| - k ==> s[k..][i] == s[k + i];
  }

  lemma NoSpaceAfterCloseSuffix(s: string, k: nat)
    requires k <= |s| && NoSpaceAfterClose(s)
    ensures NoSpaceAfterClose(s[k..])
  {
    NoAdjacentSuffix(s, k, CloseThenSpace);
  }

  /** The characters that are not whitespace, in order. */
  function Visible(s: string): string {
    if s == [] then [] else (if IsWhitespace(s[0]) then [] else [s[0]]) + Visible(s[1..])
  }

  lemma {:induction false} VisibleAppend(a: string, b: string)
    ensures Visible(a + b) == Visible(a) + Visible(b)
  {
    if a == [] {
      assert a + b == b;
    } else {
      assert (a + b)[1..] == a[1..] + b;
      VisibleAppend(a[1..], b);
    }
  }

  /** The longest whitespace prefix removed: what `\s*` or the tail of `\s+`
      consumes. */
  function DropSpaces(s: string): (r: string)
    ensures |r| <= |s|
    ensures r == [] || !IsWhitespace(r[0])
  {
    if s != [] && IsWhitespace(s[0]) then DropSpaces(s[1..]) else s
  }

  lemma {:induction false} DropSpacesSuffix(s: string)
    ensures DropSpaces(s) == s[|s| - |DropSpaces(s)|..]
  {
    if s != [] && IsWhitespace(s[0]) {
      DropSpacesSuffix(s[1..]);
      assert s[1..][|s| - 1 - |DropSpaces(s)|..] == s[|s| - |DropSpaces(s)|..];
    }
  }

  lemma {:induction false} VisibleDropSpaces(s: string)
    ensures Visible(DropSpaces(s)) == Visible(s)
  {
    if s != [] && IsWhitespace(s[0]) {
      VisibleDropSpaces(s[1..]);
    }
  }

  /** `.replace(/\t/g, "")`. */
  function RemoveTabs(s: string): (r: string)
    ensures |r| <= |s|
  {
    if s == [] then [] else (if s[0] == '\t' then [] else [s[0]]) + RemoveTabs(s[1..])
  }

  /** No tab survives, and a text without tabs is returned unchanged. */
  lemma {:induction false} RemoveTabsShape(s: string)
    ensures NoTab(RemoveTabs(s))
    ensures NoTab(s) ==> RemoveTabs(s) == s
  {
    if s != [] {
      RemoveTabsShape(s[1..]);
      assert s == [s[0]] + s[1..];
    }
  }

  lemma {:induction false} VisibleRemoveTabs(s: string)
    ensures Visible(RemoveTabs(s)) == Visible(s)
  {
    if s != [] {
      VisibleAppend(if s[0] == '\t' then [] else [s[0]], RemoveTabs(s[1..]));
      VisibleRemoveTabs(s[1..]);
    }
  }

  /** `.replace(/\s+/g, " ")`: every maximal run of whitespace becomes one space. */
  function CollapseWhitespace(s: string): (r: string)
    ensures s == [] <==> r == []
    ensures s != [] ==> r[0] == if IsWhitespace(s[0]) then ' ' else s[0]
    decreases |s|
  {
    if s == [] then []
    else if IsWhitespace(s[0]) then " " + CollapseWhitespace(DropSpaces(s[1..]))
    else [s[0]] + CollapseWhitespace(s[1..])
  }

  lemma SpacesOnlyCons(c: char, x: string)
    ensures SpacesOnly([c] + x) <==> (IsWhitespace(c) ==> c == ' ') && SpacesOnly(x)
  {
    var s := [c] + x;
    assert s[0] == c;
    assert forall i :: 0 <= i < |x| ==> s[i + 1] == x[i];
    assert forall i :: 0 < i < |s| ==> s[i] == x[i - 1];
  }

  /** After collapsing, every whitespace character is a single space. */
  lemma {:induction false} CollapseWhitespaceShape(s: string)
    ensures SpacesOnly(CollapseWhitespace(s)) && NoDoubleSpace(CollapseWhitespace(s))
    decreases |s|
  {
    if s != [] {
      var t := if IsWhitespace(s[0]) then DropSpaces(s[1..]) else s[1..];
      CollapseWhitespaceShape(t);
      var c := if IsWhitespace(s[0]) then ' ' else s[0];
      SpacesOnlyCons(c, CollapseWhitespace(t));
      NoAdjacentCons(c, CollapseWhitespace(t), BothSpaces);
    }
  }

  /** A text whose whitespace is already single spaces is returned unchanged. */
  lemma {:induction false} CollapseWhitespaceFixedPoint(s: string)
    requires SpacesOnly(s) && NoDoubleSpace(s)
    ensures CollapseWhitespace(s) == s
  {
    if s != [] {
      assert s == [s[0]] + s[1..];
      SpacesOnlyCons(s[0], s[1..]);
      NoAdjacentCons(s[0], s[1..], BothSpaces);
      if IsWhitespace(s[0]) && s[1..] != [] {
        assert !IsWhitespace(s[1..][0]);
      }
      CollapseWhitespaceFixedPoint(s[1..]);
    }
  }

  lemma {:induction false} VisibleCollapseWhitespace(s: string)
    ensures Visible(CollapseWhitespace(s)) == Visible(s)
    decreases |s|
  {
    if s != [] {
      if IsWhitespace(s[0]) {
        VisibleAppend(" ", CollapseWhitespace(DropSpaces(s[1..])));
        VisibleCollapseWhitespace(DropSpaces(s[1..]));
        VisibleDropSpaces(s[1..]);
      } else {
        VisibleAppend([s[0]], CollapseWhitespace(s[1..]));
        VisibleCollapseWhitespace(s[1..]);
      }
    }
  }

  /** `.replace(/\s>/g, ">")`: a whitespace character directly before `>` is dropped. */
  function TrimBeforeClose(s: string): (r: string)
    ensures s == [] <==> r == []
    ensures s != [] ==> r[0] == if |s| >= 2 && IsWhitespace(s[0]) && s[1] == '>' then '>' else s[0]
  {
    if s == [] then []
    else if |s| >= 2 && IsWhitespace(s[0]) && s[1] == '>' then ">" + TrimBeforeClose(s[2..])
    else [s[0]] + TrimBeforeClose(s[1..])
  }

  /** On a text of single spaces, no space is left before a `>`. */
  lemma {:induction false} TrimBeforeCloseShape(s: string)
    requires NoTab(s) && SpacesOnly(s) && NoDoubleSpace(s)
    ensures Spaced(TrimBeforeClose(s))
  {
    if s == [] {
    } else {
      assert s == [s[0]] + s[1..];
      SpacesOnlyCons(s[0], s[1..]);
      NoAdjacentCons(s[0], s[1..], BothSpaces);
      if |s| >= 2 && IsWhitespace(s[0]) && s[1] == '>' {
        assert s[1..] == [s[1]] + s[2..];
        SpacesOnlyCons(s[1], s[2..]);
        NoAdjacentCons(s[1], s[2..], BothSpaces);
        TrimBeforeCloseShape(s[2..]);
        SpacedCons('>', TrimBeforeClose(s[2..]));
      } else {
        TrimBeforeCloseShape(s[1..]);
        SpacedCons(s[0], TrimBeforeClose(s[1..]));
      }
    }
  }

  lemma {:induction false} TrimBeforeCloseFixedPoint(s: string)
    requires NoSpaceBeforeClose(s)
    ensures TrimBeforeClose(s) == s
  {
    if s != [] {
      assert s == [s[0]] + s[1..];
      NoAdjacentCons(s[0], s[1..], SpaceThenClose);
      TrimBeforeCloseFixedPoint(s[1..]);
    }
  }

  lemma {:induction false} VisibleTrimBeforeClose(s: string)
    ensures Visible(TrimBeforeClose(s)) == Visible(s)
  {
    if s == [] {
    } else if |s| >= 2 && IsWhitespace(s[0]) && s[1] == '>' {
      VisibleAppend(">", TrimBeforeClose(s[2..]));
      VisibleTrimBeforeClose(s[2..]);
      assert s[1..][1..] == s[2..];
    } else {
      VisibleAppend([s[0]], TrimBeforeClose(s[1..]));
      VisibleTrimBeforeClose(s[1..]);
    }
  }

  // `.replace(/>\s*</g, "><")`: whitespace between a `>` and a `<` is dropped.
  function CollapseBetweenTags(s: string): (r: string)
    ensures s == [] <==> r == []
    ensures s != [] ==> r[0] == s[0]
    decreases |s|
  {
    if s == [] then []
    else if s[0] == '>' && DropSpaces(s[1..]) != [] && DropSpaces(s[1..])[0] == '<' then
      "><" + CollapseBetweenTags(DropSpaces(s[1..])[1..])
    else [s[0]] + CollapseBetweenTags(s[1..])
  }

  /** Dropping whitespace between tags keeps the shape the earlier passes set up. */
  lemma {:induction false} CollapseBetweenTagsKeepsShape(s: string)
    requires Spaced(s)
    ensures Spaced(CollapseBetweenTags(s))
    decreases |s|
  {
    if s == [] {
    } else if s[0] == '>' && DropSpaces(s[1..]) != [] && DropSpaces(s[1..])[0] == '<' {
      var rest := DropSpaces(s[1..])[1..];
      DropSpacesSuffix(s[1..]);
      assert rest == s[|s| - |rest|..];
      SpacedSuffix(s, |s| - |rest|);
      CollapseBetweenTagsKeepsShape(rest);
      var r := CollapseBetweenTags(rest);
      SpacedCons('<', r);
      SpacedCons('>', ['<'] + r);
      assert "><" + r == ['>'] + (['<'] + r);
    } else {
      SpacedSuffix(s, 1);
      CollapseBetweenTagsKeepsShape(s[1..]);
      SpacedCons(s[0], s[1..]);
      SpacedCons(s[0], CollapseBetweenTags(s[1..]));
      assert s == [s[0]] + s[1..];
    }
  }

  lemma {:induction false} CollapseBetweenTagsFixedPoint(s: string)
    requires NoSpaceAfterClose(s)
    ensures CollapseBetweenTags(s) == s
    decreases |s|
  {
    if s != [] && s[0] == '>' && |s| > 1 && s[1] == '<' {
      assert !IsWhitespace(s[1]);
      assert DropSpaces(s[1..]) == s[1..];
      NoSpaceAfterCloseSuffix(s, 2);
      CollapseBetweenTagsFixedPoint(s[2..]);
      assert s == "><" + s[2..];
    } else if s != [] {
      if s[0] == '>' && |s| > 1 {
        assert !CloseThenSpace(s[0], s[1]);
        assert DropSpaces(s[1..]) == s[1..];
      }
      NoSpaceAfterCloseSuffix(s, 1);
      CollapseBetweenTagsFixedPoint(s[1..]);
      assert s == [s[0]] + s[1..];
    }
  }

  lemma {:induction false} VisibleCollapseBetweenTags(s: string)
    ensures Visible(CollapseBetweenTags(s)) == Visible(s)
    decreases |s|
  {
    if s == [] {
    } else if s[0] == '>' && DropSpaces(s[1..]) != [] && DropSpaces(s[1..])[0] == '<' {
      var rest := DropSpaces(s[1..]);
      VisibleAppend("><", CollapseBetweenTags(rest[1..]));
      VisibleCollapseBetweenTags(rest[1..]);
      VisibleDropSpaces(s[1..]);
      assert rest == [rest[0]] + rest[1..];
      VisibleAppend([rest[0]], rest[1..]);
    } else {
      VisibleAppend([s[0]], CollapseBetweenTags(s[1..]));
      VisibleCollapseBetweenTags(s[1..]);
    }
  }

  // `.replace(/>\s*/g, ">")`: whitespace after a `>` is dropped.
  function TrimAfterClose(s: string): (r: string)
    ensures s == [] <==> r == []
    ensures s != [] ==> r[0] == s[0]
    decreases |s|
  {
    if s == [] then []
    else if s[0] == '>' then ">" + TrimAfterClose(DropSpaces(s[1..]))
    else [s[0]] + TrimAfterClose(s[1..])
  }

  /** No whitespace is left after a `>`. */
  lemma {:induction false} TrimAfterCloseNoSpaceAfter(s: string)
    ensures NoSpaceAfterClose(TrimAfterClose(s))
    decreases |s|
  {
    if s != [] {
      var t := if s[0] == '>' then DropSpaces(s[1..]) else s[1..];
      TrimAfterCloseNoSpaceAfter(t);
      NoAdjacentCons(s[0], TrimAfterClose(t), CloseThenSpace);
    }
  }

  /** Dropping whitespace after `>` keeps the shape the earlier passes set up. */
  lemma {:induction false} TrimAfterCloseKeepsShape(s: string)
    requires Spaced(s)
    ensures Spaced(TrimAfterClose(s))
    decreases |s|
  {
    if s == [] {
    } else if s[0] == '>' {
      var rest := DropSpaces(s[1..]);
      DropSpacesSuffix(s[1..]);
      assert rest == s[|s| - |rest|..];
      SpacedSuffix(s, |s| - |rest|);
      TrimAfterCloseKeepsShape(rest);
      SpacedCons('>', TrimAfterClose(rest));
    } else {
      SpacedSuffix(s, 1);
      TrimAfterCloseKeepsShape(s[1..]);
      SpacedCons(s[0], s[1..]);
      SpacedCons(s[0], TrimAfterClose(s[1..]));
      assert s == [s[0]] + s[1..];
    }
  }

  lemma {:induction false} TrimAfterCloseFixedPoint(s: string)
    requires NoSpaceAfterClose(s)
    ensures TrimAfterClose(s) == s
    decreases |s|
  {
    if s == [] {
    } else if s[0] == '>' {
      assert DropSpaces(s[1..]) == s[1..];
      TrimAfterCloseFixedPoint(s[1..]);
    } else {
      TrimAfterCloseFixedPoint(s[1..]);
    }
  }

  lemma {:induction false} VisibleTrimAfterClose(s: string)
    ensures Visible(TrimAfterClose(s)) == Visible(s)
    decreases |s|
  {
    if s == [] {
    } else if s[0] == '>' {
      VisibleAppend(">", TrimAfterClose(DropSpaces(s[1..])));
      VisibleTrimAfterClose(DropSpaces(s[1..]));
      VisibleDropSpaces(s[1..]);
    } else {
      VisibleAppend([s[0]], TrimAfterClose(s[1..]));
      VisibleTrimAfterClose(s[1..]);
    }
  }

  /** `minify`: the five passes in the source's order. */
  function Minify(text: string): string {
    TrimAfterClose(CollapseBetweenTags(TrimBeforeClose(CollapseWhitespace(RemoveTabs(text)))))
  }

  /** Every output has the minified shape: no tab, every whitespace a single
      space, none next to another and none on either side of a `>`. */
  lemma MinifyShape(text: string)
    ensures Minified(Minify(text))
  {
    var s1 := RemoveTabs(text);
    var s2 := CollapseWhitespace(s1);
    RemoveTabsShape(text);
    CollapseWhitespaceShape(s1);
    TrimBeforeCloseShape(s2);
    var s3 := TrimBeforeClose(s2);
    CollapseBetweenTagsKeepsShape(s3);
    TrimAfterCloseKeepsShape(CollapseBetweenTags(s3));
    TrimAfterCloseNoSpaceAfter(CollapseBetweenTags(s3));
  }

  /** A text that already has the shape is returned unchanged. */
  lemma MinifyKeepsMinified(text: string)
    requires Minified(text)
    ensures Minify(text) == text
  {
    RemoveTabsShape(text);
    CollapseWhitespaceFixedPoint(text);
    TrimBeforeCloseFixedPoint(text);
    CollapseBetweenTagsFixedPoint(text);
    TrimAfterCloseFixedPoint(text);
  }

  /** Minifying changes whitespace only: the other characters survive in order. */
  lemma MinifyKeepsVisible(text: string)
    ensures Visible(Minify(text)) == Visible(text)
  {
    var s1 := RemoveTabs(text);
    var s2 := CollapseWhitespace(s1);
    var s3 := TrimBeforeClose(s2);
    var s4 := CollapseBetweenTags(s3);
    VisibleRemoveTabs(text);
    VisibleCollapseWhitespace(s1);
    VisibleTrimBeforeClose(s2);
    VisibleCollapseBetweenTags(s3);
    VisibleTrimAfterClose(s4);
  }

  /** A text is its own minification exactly when it has the minified shape. */
  lemma MinifyFixedPointIff(text: string)
    ensures Minify(text) == text <==> Minified(text)
  {
    MinifyShape(text);
    if Minified(text) {
      MinifyKeepsMinified(text);
    }
  }

  lemma MinifyIdempotent(text: string)
    ensures Minify(Minify(text)) == Minify(text)
  {
    MinifyShape(text);
    MinifyKeepsMinified(Minify(text));
  }
  /** A cut after a character that is neither whitespace nor `>`: no match
      of any of the five patterns can span it. */
  predicate SafeCut(a: string) {
    a == [] || (!IsWhitespace(a[|a| - 1]) && a[|a| - 1] != '>')
  }

  lemma SafeCutSuffix(a: string, k: nat)
    requires k <= |a| && SafeCut(a)
    ensures SafeCut(a[k..])
  {
  }

  lemma SafeCutAppend(x: string, y: string)
    requires y != [] && SafeCut(y)
    ensures SafeCut(x + y)
  {
  }

  lemma {:induction false} DropSpacesAppend(a: string, b: string)
    requires a != [] && !IsWhitespace(a[|a| - 1])
    ensures DropSpaces(a + b) == DropSpaces(a) + b
    ensures DropSpaces(a) != []
    ensures SafeCut(a) ==> SafeCut(DropSpaces(a))
  {
    if IsWhitespace(a[0]) {
      assert (a + b)[1..] == a[1..] + b;
      DropSpacesAppend(a[1..], b);
    }
  }

  lemma {:induction false} RemoveTabsAppend(a: string, b: string)
    ensures RemoveTabs(a + b) == RemoveTabs(a) + RemoveTabs(b)
  {
    if a == [] {
      assert a + b == b;
    } else {
      assert (a + b)[1..] == a[1..] + b;
      RemoveTabsAppend(a[1..], b);
    }
  }

  lemma RemoveTabsSafeCut(a: string)
    requires SafeCut(a)
    ensures SafeCut(RemoveTabs(a))
  {
    if a != [] {
      var n := |a| - 1;
      assert a == a[..n] + [a[n]];
      RemoveTabsAppend(a[..n], [a[n]]);
      assert RemoveTabs([a[n]]) == [a[n]] by {
        assert [a[n]][1..] == [];
      }
    }
  }

  lemma {:induction false} CollapseWhitespaceAppend(a: string, b: string)
    requires SafeCut(a)
    ensures CollapseWhitespace(a + b) == CollapseWhitespace(a) + CollapseWhitespace(b)
    decreases |a|
  {
    if a == [] {
      assert a + b == b;
    } else if IsWhitespace(a[0]) {
      var rest := DropSpaces(a[1..]);
      assert CollapseWhitespace(a + b) == " " + CollapseWhitespace(rest + b) by {
        assert (a + b)[1..] == a[1..] + b;
        DropSpacesAppend(a[1..], b);
      }
      assert SafeCut(rest) by {
        SafeCutSuffix(a, 1);
        DropSpacesAppend(a[1..], b);
      }
      CollapseWhitespaceAppend(rest, b);
      assert " " + (CollapseWhitespace(rest) + CollapseWhitespace(b))
          == (" " + CollapseWhitespace(rest)) + CollapseWhitespace(b);
    } else {
      assert CollapseWhitespace(a + b) == [a[0]] + CollapseWhitespace(a[1..] + b) by {
        assert (a + b)[1..] == a[1..] + b;
      }
      SafeCutSuffix(a, 1);
      CollapseWhitespaceAppend(a[1..], b);
      assert [a[0]] + (CollapseWhitespace(a[1..]) + CollapseWhitespace(b))
          == ([a[0]] + CollapseWhitespace(a[1..])) + CollapseWhitespace(b);
    }
  }

  lemma {:induction false} CollapseWhitespaceSafeCut(a: string)
    requires SafeCut(a)
    ensures SafeCut(CollapseWhitespace(a))
    decreases |a|
  {
    if a != [] {
      SafeCutSuffix(a, 1);
      if IsWhitespace(a[0]) {
        var rest := DropSpaces(a[1..]);
        assert rest != [] && SafeCut(rest) by {
          DropSpacesAppend(a[1..], []);
        }
        CollapseWhitespaceSafeCut(rest);
        SafeCutAppend(" ", CollapseWhitespace(rest));
      } else if a[1..] != [] {
        CollapseWhitespaceSafeCut(a[1..]);
        SafeCutAppend([a[0]], CollapseWhitespace(a[1..]));
      }
    }
  }

  lemma {:induction false} TrimBeforeCloseAppend(a: string, b: string)
    requires SafeCut(a)
    ensures TrimBeforeClose(a + b) == TrimBeforeClose(a) + TrimBeforeClose(b)
  {
    if a == [] {
      assert a + b == b;
    } else if |a| >= 2 && IsWhitespace(a[0]) && a[1] == '>' {
      assert TrimBeforeClose(a + b) == ">" + TrimBeforeClose(a[2..] + b) by {
        assert (a + b)[2..] == a[2..] + b;
      }
      SafeCutSuffix(a, 2);
      TrimBeforeCloseAppend(a[2..], b);
      assert ">" + (TrimBeforeClose(a[2..]) + TrimBeforeClose(b))
          == (">" + TrimBeforeClose(a[2..])) + TrimBeforeClose(b);
    } else {
      assert TrimBeforeClose(a + b) == [a[0]] + TrimBeforeClose(a[1..] + b) by {
        assert (a + b)[1..] == a[1..] + b;
      }
      SafeCutSuffix(a, 1);
      TrimBeforeCloseAppend(a[1..], b);
      assert [a[0]] + (TrimBeforeClose(a[1..]) + TrimBeforeClose(b))
          == ([a[0]] + TrimBeforeClose(a[1..])) + TrimBeforeClose(b);
    }
  }

  lemma {:induction false} TrimBeforeCloseSafeCut(a: string)
    requires SafeCut(a)
    ensures SafeCut(TrimBeforeClose(a))
  {
    if a == [] {
    } else if |a| >= 2 && IsWhitespace(a[0]) && a[1] == '>' {
      SafeCutSuffix(a, 2);
      TrimBeforeCloseSafeCut(a[2..]);
      SafeCutAppend(">", TrimBeforeClose(a[2..]));
    } else if a[1..] != [] {
      SafeCutSuffix(a, 1);
      TrimBeforeCloseSafeCut(a[1..]);
      SafeCutAppend([a[0]], TrimBeforeClose(a[1..]));
    }
  }

  lemma {:induction false} CollapseBetweenTagsAppend(a: string, b: string)
    requires SafeCut(a)
    ensures CollapseBetweenTags(a + b) == CollapseBetweenTags(a) + CollapseBetweenTags(b)
    decreases |a|
  {
    if a == [] {
      assert a + b == b;
    } else if a[0] == '>' && DropSpaces(a[1..]) != [] && DropSpaces(a[1..])[0] == '<' {
      var rest := DropSpaces(a[1..]);
      assert CollapseBetweenTags(a + b) == "><" + CollapseBetweenTags(rest[1..] + b) by {
        assert (a + b)[1..] == a[1..] + b;
        DropSpacesAppend(a[1..], b);
        assert (rest + b)[1..] == rest[1..] + b;
      }
      assert SafeCut(rest[1..]) by {
        SafeCutSuffix(a, 1);
        DropSpacesAppend(a[1..], b);
        SafeCutSuffix(rest, 1);
      }
      CollapseBetweenTagsAppend(rest[1..], b);
      assert "><" + (CollapseBetweenTags(rest[1..]) + CollapseBetweenTags(b))
          == ("><" + CollapseBetweenTags(rest[1..])) + CollapseBetweenTags(b);
    } else {
      assert CollapseBetweenTags(a + b) == [a[0]] + CollapseBetweenTags(a[1..] + b) by {
        assert (a + b)[1..] == a[1..] + b;
        if a[0] == '>' {
          DropSpacesAppend(a[1..], b);
        }
      }
      SafeCutSuffix(a, 1);
      CollapseBetweenTagsAppend(a[1..], b);
      assert [a[0]] + (CollapseBetweenTags(a[1..]) + CollapseBetweenTags(b))
          == ([a[0]] + CollapseBetweenTags(a[1..])) + CollapseBetweenTags(b);
    }
  }

  lemma {:induction false} CollapseBetweenTagsSafeCut(a: string)
    requires SafeCut(a)
    ensures SafeCut(CollapseBetweenTags(a))
    decreases |a|
  {
    if a != [] {
      SafeCutSuffix(a, 1);
      if a[0] == '>' && DropSpaces(a[1..]) != [] && DropSpaces(a[1..])[0] == '<' {
        var rest := DropSpaces(a[1..]);
        assert SafeCut(rest[1..]) by {
          DropSpacesAppend(a[1..], []);
          SafeCutSuffix(rest, 1);
        }
        if rest[1..] != [] {
          CollapseBetweenTagsSafeCut(rest[1..]);
          SafeCutAppend("><", CollapseBetweenTags(rest[1..]));
        }
      } else if a[1..] != [] {
        CollapseBetweenTagsSafeCut(a[1..]);
        SafeCutAppend([a[0]], CollapseBetweenTags(a[1..]));
      }
    }
  }

  lemma {:induction false} TrimAfterCloseAppend(a: string, b: string)
    requires SafeCut(a)
    ensures TrimAfterClose(a + b) == TrimAfterClose(a) + TrimAfterClose(b)
    decreases |a|
  {
    if a == [] {
      assert a + b == b;
    } else if a[0] == '>' {
      var rest := DropSpaces(a[1..]);
      assert TrimAfterClose(a + b) == ">" + TrimAfterClose(rest + b) by {
        assert (a + b)[1..] == a[1..] + b;
        DropSpacesAppend(a[1..], b);
      }
      assert SafeCut(rest) by {
        SafeCutSuffix(a, 1);
        DropSpacesAppend(a[1..], b);
      }
      TrimAfterCloseAppend(rest, b);
      assert ">" + (TrimAfterClose(rest) + TrimAfterClose(b))
          == (">" + TrimAfterClose(rest)) + TrimAfterClose(b);
    } else {
      assert TrimAfterClose(a + b) == [a[0]] + TrimAfterClose(a[1..] + b) by {
        assert (a + b)[1..] == a[1..] + b;
      }
      SafeCutSuffix(a, 1);
      TrimAfterCloseAppend(a[1..], b);
      assert [a[0]] + (TrimAfterClose(a[1..]) + TrimAfterClose(b))
          == ([a[0]] + TrimAfterClose(a[1..])) + TrimAfterClose(b);
    }
  }

  lemma {:induction false} TrimAfterCloseSafeCut(a: string)
    requires SafeCut(a)
    ensures SafeCut(TrimAfterClose(a))
    decreases |a|
  {
    if a != [] {
      SafeCutSuffix(a, 1);
      if a[0] == '>' {
        var rest := DropSpaces(a[1..]);
        assert rest != [] && SafeCut(rest) by {
          DropSpacesAppend(a[1..], []);
        }
        TrimAfterCloseSafeCut(rest);
        SafeCutAppend(">", TrimAfterClose(rest));
      } else if a[1..] != [] {
        TrimAfterCloseSafeCut(a[1..]);
        SafeCutAppend([a[0]], TrimAfterClose(a[1..]));
      }
    }
  }

  /** Minifying is local: a text cut after a character that is neither
      whitespace nor `>` minifies piece by piece. */
  lemma MinifyAppend(a: string, b: string)
    requires SafeCut(a)
    ensures Minify(a + b) == Minify(a) + Minify(b)
    ensures SafeCut(Minify(a))
  {
    RemoveTabsAppend(a, b);
    RemoveTabsSafeCut(a);
    var a1, b1 := RemoveTabs(a), RemoveTabs(b);
    CollapseWhitespaceAppend(a1, b1);
    CollapseWhitespaceSafeCut(a1);
    var a2, b2 := CollapseWhitespace(a1), CollapseWhitespace(b1);
    TrimBeforeCloseAppend(a2, b2);
    TrimBeforeCloseSafeCut(a2);
    var a3, b3 := TrimBeforeClose(a2), TrimBeforeClose(b2);
    CollapseBetweenTagsAppend(a3, b3);
    CollapseBetweenTagsSafeCut(a3);
    TrimAfterCloseAppend(CollapseBetweenTags(a3), CollapseBetweenTags(b3));
    TrimAfterCloseSafeCut(CollapseBetweenTags(a3));
  }
  /** A text with no whitespace and no `>` is already minified. */
  lemma PlainIsMinified(s: string)
    requires forall i :: 0 <= i < |s| ==> !IsWhitespace(s[i]) && s[i] != '>'
    ensures Minify(s) == s
  {
    MinifyKeepsMinified(s);
  }

  /** A single space before a `>` that opens plain text is dropped. */
  lemma MinifySpaceBeforeClose(p: string)
    requires forall i :: 0 <= i < |p| ==> !IsWhitespace(p[i]) && p[i] != '>'
    ensures Minify(" >" + p) == ">" + p
  {
    var t := " >" + p;
    assert forall i :: 2 <= i < |t| ==> t[i] == p[i - 2];
    RemoveTabsShape(t);
    CollapseWhitespaceFixedPoint(t);
    assert TrimBeforeClose(t) == ">" + p by {
      assert t[2..] == p;
      MinifyKeepsMinified(p);
      TrimBeforeCloseFixedPoint(p);
    }
    var u := ">" + p;
    assert forall i :: 1 <= i < |u| ==> u[i] == p[i - 1];
    CollapseBetweenTagsFixedPoint(u);
    TrimAfterCloseFixedPoint(u);
  }

  /** Printable ASCII other than the space and `>` is plain. */
  lemma PrintableIsMinified(s: string)
    requires forall i :: 0 <= i < |s| ==> '!' <= s[i] <= '~' && s[i] != '>'
    ensures Minify(s) == s
  {
    PlainIsMinified(s);
  }

  lemma VectorButtonLabel(s: string) requires s == " >label" ensures Minify(s) == ">label" {
    var word := "label";
    assert s == " >" + word;
    MinifySpaceBeforeClose(word);
  }

  lemma VectorClose(s: string) requires s == ">" ensures Minify(s) == s {
    MinifyKeepsMinified(s);
  }

  /** Five pieces, each cut safely from the next, minify piece by piece. */
  lemma MinifyFivePieces(p1: string, p2: string, p3: string, p4: string, p5: string,
                         m1: string, m2: string, m3: string, m4: string, m5: string)
    requires SafeCut(p1) && SafeCut(p2) && SafeCut(p3) && SafeCut(p4)
    requires p2 != [] && p3 != [] && p4 != []
    requires Minify(p1) == m1 && Minify(p2) == m2 && Minify(p3) == m3
    requires Minify(p4) == m4 && Minify(p5) == m5
    ensures Minify(p1 + p2 + p3 + p4 + p5) == m1 + m2 + m3 + m4 + m5
  {
    MinifyAppend(p1, p2);
    SafeCutAppend(p1, p2);
    MinifyAppend(p1 + p2, p3);
    SafeCutAppend(p1 + p2, p3);
    MinifyAppend(p1 + p2 + p3, p4);
    SafeCutAppend(p1 + p2 + p3, p4);
    MinifyAppend(p1 + p2 + p3 + p4, p5);
  }

  /** The vector below, piece by piece. */
  lemma ButtonPieces(text: string, p1: string, p2: string, p3: string, p4: string, p5: string)
    requires p1 == "<button" && p2 == " >label" && p3 == "</" && p4 == "button" && p5 == ">"
    requires text == p1 + p2 + p3 + p4 + p5
    ensures Minify(text) == p1 + ">label" + p3 + p4 + p5
  {
    PrintableIsMinified(p1);
    VectorButtonLabel(p2);
    PrintableIsMinified(p3);
    PrintableIsMinified(p4);
    VectorClose(p5);
    MinifyFivePieces(p1, p2, p3, p4, p5, p1, ">label", p3, p4, p5);
  }

  /** The vector of synchronous_rendering_test.ts: the space a `null` part
      leaves before `>` is dropped. */
  lemma ButtonVector(text: string)
    requires text == "<button" + " >label" + "</" + "button" + ">"
    ensures Minify(text) == "<button" + ">label" + "</" + "button" + ">"
  {
    var p1, p2, p3, p4, p5 := "<button", " >label", "</", "button", ">";
    ButtonPieces(text, p1, p2, p3, p4, p5);
  }
}
